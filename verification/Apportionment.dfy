/** The stratified partition: whole families of task variants are placed, library by library and largest
    first, in the split furthest below its share. Shares are percentages and deficits are kept in
    hundredths of a task, so the arithmetic is exact. */
module Apportionment {
  import opened Sequences

  datatype Split = Main | Source | Discovery | Calibration | Dev | Reserve

  /** A family: the variants of one original task of one library. */
  datatype Key = Key(library: nat, origin: nat)

  datatype Task = Task(id: nat, key: Key)

  type Families = map<Key, seq<nat>>

  /** The splits in order of priority. */
  const ORDER: seq<Split> := [Main, Source, Discovery, Calibration, Dev, Reserve]

  /** The share of a split in a library of `n` tasks, in hundredths of a task. */
  function Quota(s: Split, n: nat): nat {
    match s
    case Main => 45 * n
    case Source => 20 * n
    case Discovery => 12 * n
    case Calibration => 10 * n
    case Dev => 8 * n
    case Reserve => 5 * n
  }

  // ---------------------------------------------------------------- families

  /** The ids of the tasks whose family is one of `keys`, in order. */
  function Ids(tasks: seq<Task>, keys: set<Key>): seq<nat> {
    if tasks == [] then []
    else var last := |tasks| - 1;
         Ids(tasks[..last], keys) + (if tasks[last].key in keys then [tasks[last].id] else [])
  }

  /** `fam` lists the members of every family. */
  ghost predicate Grouped(tasks: seq<Task>, fam: Families) {
    forall k: Key :: (k in fam <==> Ids(tasks, {k}) != []) && (k in fam ==> fam[k] == Ids(tasks, {k}))
  }

  lemma {:induction false} GroupOne(tasks: seq<Task>, fam: Families, t: Task)
    requires Grouped(tasks, fam)
    ensures Grouped(tasks + [t], fam[t.key := (if t.key in fam then fam[t.key] else []) + [t.id]])
  {
    assert (tasks + [t])[..|tasks|] == tasks;
    forall k: Key ensures Ids(tasks + [t], {k}) == Ids(tasks, {k}) + (if k == t.key then [t.id] else []) {
    }
  }

  method GroupFamilies(tasks: seq<Task>) returns (fam: Families)
    ensures Grouped(tasks, fam)
  {
    fam := map[];
    for i := 0 to |tasks|
      invariant Grouped(tasks[..i], fam)
    {
      var t := tasks[i];
      GroupOne(tasks[..i], fam, t);
      TakeOneMore(tasks, i);
      fam := fam[t.key := (if t.key in fam then fam[t.key] else []) + [t.id]];
    }
    assert tasks[..|tasks|] == tasks;
  }

  lemma {:induction false} IdsSplit(tasks: seq<Task>, ks: set<Key>, ls: set<Key>)
    requires ks !! ls
    ensures multiset(Ids(tasks, ks + ls)) == multiset(Ids(tasks, ks)) + multiset(Ids(tasks, ls))
    ensures |Ids(tasks, ks + ls)| == |Ids(tasks, ks)| + |Ids(tasks, ls)|
  {
    if tasks != [] { IdsSplit(tasks[..|tasks| - 1], ks, ls); }
  }

  lemma {:induction false} IdsNone(tasks: seq<Task>)
    ensures Ids(tasks, {}) == []
  {
    if tasks != [] { IdsNone(tasks[..|tasks| - 1]); }
  }

  lemma {:induction false} IdsAre(tasks: seq<Task>, keys: set<Key>, x: nat)
    ensures x in Ids(tasks, keys) <==> exists t :: t in tasks && t.key in keys && t.id == x
  {
    if tasks != [] {
      var last := tasks[|tasks| - 1];
      IdsAre(tasks[..|tasks| - 1], keys, x);
      assert tasks == tasks[..|tasks| - 1] + [last];
    }
  }

  lemma {:induction false} AllIds(tasks: seq<Task>, keys: set<Key>)
    requires forall t :: t in tasks ==> t.key in keys
    ensures |Ids(tasks, keys)| == |tasks| && forall i :: 0 <= i < |tasks| ==> Ids(tasks, keys)[i] == tasks[i].id
  {
    if tasks != [] {
      assert tasks[|tasks| - 1] in tasks;
      AllIds(tasks[..|tasks| - 1], keys);
    }
  }

  // ---------------------------------------------------------------- the neediest split

  type Fill = map<Split, nat>

  ghost predicate Full<V>(m: map<Split, V>) { forall s: Split :: s in m }

  /** How far a split is below its share. */
  function Deficit(n: nat, filled: Fill, s: Split): int
    requires s in filled
  {
    Quota(s, n) - 100 * filled[s]
  }

  function Rank(s: Split): nat {
    match s
    case Main => 0
    case Source => 1
    case Discovery => 2
    case Calibration => 3
    case Dev => 4
    case Reserve => 5
  }

  /** Split `t` is not to be filled before `best`. */
  ghost predicate NotBefore(n: nat, filled: Fill, t: Split, best: Split)
    requires Full(filled)
  {
    Deficit(n, filled, t) < Deficit(n, filled, best)
    || (Deficit(n, filled, t) == Deficit(n, filled, best) && Rank(best) <= Rank(t))
  }

  /** The split to fill next is the one with the largest deficit, by priority among equals. */
  ghost predicate Neediest(n: nat, filled: Fill, s: Split)
    requires Full(filled)
  {
    forall t: Split :: NotBefore(n, filled, t, s)
  }

  method FindNeediest(n: nat, filled: Fill) returns (best: Split)
    requires Full(filled)
    ensures Neediest(n, filled, best)
  {
    best := ORDER[0];
    for i := 1 to |ORDER|
      invariant Rank(best) < i
      invariant forall t: Split :: Rank(t) < i ==> NotBefore(n, filled, t, best)
    {
      var s := ORDER[i];
      assert forall t: Split :: Rank(t) == i ==> t == s;
      if Deficit(n, filled, s) > Deficit(n, filled, best) { best := s; }
    }
  }

  lemma {:induction false} EachSplit(n: nat, filled: Fill, best: Split)
    requires Full(filled)
    ensures Neediest(n, filled, best) <==>
            NotBefore(n, filled, Main, best) && NotBefore(n, filled, Source, best) && NotBefore(n, filled, Discovery, best)
            && NotBefore(n, filled, Calibration, best) && NotBefore(n, filled, Dev, best) && NotBefore(n, filled, Reserve, best)
  {
    if NotBefore(n, filled, Main, best) && NotBefore(n, filled, Source, best) && NotBefore(n, filled, Discovery, best)
       && NotBefore(n, filled, Calibration, best) && NotBefore(n, filled, Dev, best) && NotBefore(n, filled, Reserve, best)
    {
      forall t: Split ensures NotBefore(n, filled, t, best) {
        match t {
          case Main => case Source => case Discovery => case Calibration => case Dev => case Reserve =>
        }
      }
    }
  }

  /** Which split that is, in figures: percentages of the library against what each split holds so far. */
  lemma NeediestIff(n: nat, filled: Fill, best: Split)
    requires Full(filled)
    ensures Neediest(n, filled, best) <==>
              var m, s := 45 * n - 100 * filled[Main], 20 * n - 100 * filled[Source];
              var d, c := 12 * n - 100 * filled[Discovery], 10 * n - 100 * filled[Calibration];
              var v, r := 8 * n - 100 * filled[Dev], 5 * n - 100 * filled[Reserve];
              match best
              case Main => m >= s && m >= d && m >= c && m >= v && m >= r
              case Source => s > m && s >= d && s >= c && s >= v && s >= r
              case Discovery => d > m && d > s && d >= c && d >= v && d >= r
              case Calibration => c > m && c > s && c > d && c >= v && c >= r
              case Dev => v > m && v > s && v > d && v > c && v >= r
              case Reserve => r > m && r > s && r > d && r > c && r > v
  {
    EachSplit(n, filled, best);
  }

  function SumOf(filled: Fill): nat
    requires Full(filled)
  {
    filled[Main] + filled[Source] + filled[Discovery] + filled[Calibration] + filled[Dev] + filled[Reserve]
  }

  /** While tasks remain to be placed, some split is below its share. */
  lemma SomeSplitNeedy(n: nat, filled: Fill, s: Split)
    requires Full(filled) && SumOf(filled) < n && Neediest(n, filled, s)
    ensures Deficit(n, filled, s) > 0
  {
    EachSplit(n, filled, s);
  }

  /** No split is a whole `f` tasks or more above its share. */
  ghost predicate NoneOver(n: nat, filled: Fill, f: nat) {
    Full(filled) && forall s: Split :: Deficit(n, filled, s) > -100 * f
  }

  /** When everything is placed, a split can lack at most what the five others have too many. */
  lemma NoneFarUnder(n: nat, filled: Fill, f: nat, s: Split)
    requires NoneOver(n, filled, f) && SumOf(filled) == n && f > 0
    ensures Deficit(n, filled, s) < 500 * f
  {
    assert Deficit(n, filled, Main) > -100 * f;
    assert Deficit(n, filled, Source) > -100 * f;
    assert Deficit(n, filled, Discovery) > -100 * f;
    assert Deficit(n, filled, Calibration) > -100 * f;
    assert Deficit(n, filled, Dev) > -100 * f;
    assert Deficit(n, filled, Reserve) > -100 * f;
  }

  lemma PlacingKeepsNoneOver(n: nat, filled: Fill, f: nat, s: Split, size: nat)
    requires NoneOver(n, filled, f) && Deficit(n, filled, s) > 0 && size <= f
    ensures NoneOver(n, filled[s := filled[s] + size], f)
  {
    var next := filled[s := filled[s] + size];
    forall t: Split ensures Deficit(n, next, t) > -100 * f {
      assert Deficit(n, filled, t) > -100 * f;
    }
  }

  // ---------------------------------------------------------------- placing families

  type Placement = map<Key, Split>

  type Assignment = map<Split, seq<nat>>

  ghost function InSplit(place: Placement, s: Split): set<Key> { set k | k in place && place[k] == s }

  /** The families of one library placed in `s`. */
  ghost function InSplitOf(place: Placement, library: nat, s: Split): set<Key> {
    set k | k in place && k.library == library && place[k] == s
  }

  ghost function Library(fam: Families, library: nat): set<Key> { set k | k in fam && k.library == library }

  /** Every split holds exactly the tasks of the families placed in it. */
  ghost predicate Placed(tasks: seq<Task>, place: Placement, assign: Assignment) {
    Full(assign) && forall s: Split :: multiset(assign[s]) == multiset(Ids(tasks, InSplit(place, s)))
  }

  /** `filled` counts the tasks of one library in every split. */
  ghost predicate Counted(tasks: seq<Task>, place: Placement, library: nat, filled: Fill) {
    Full(filled) && forall s: Split :: filled[s] == |Ids(tasks, InSplitOf(place, library, s))|
  }

  lemma InSplitPlaced(place: Placement, k: Key, s: Split, t: Split)
    requires k !in place
    ensures InSplit(place[k := s], t) == InSplit(place, t) + (if t == s then {k} else {})
  {
  }

  lemma InSplitOfPlaced(place: Placement, library: nat, k: Key, s: Split, t: Split)
    requires k !in place && k.library == library
    ensures InSplitOf(place[k := s], library, t) == InSplitOf(place, library, t) + (if t == s then {k} else {})
  {
  }

  lemma PlaceOne(tasks: seq<Task>, place: Placement, assign: Assignment, k: Key, s: Split, members: seq<nat>)
    requires Placed(tasks, place, assign) && k !in place && members == Ids(tasks, {k})
    ensures Placed(tasks, place[k := s], assign[s := assign[s] + members])
  {
    var next, held := place[k := s], assign[s := assign[s] + members];
    forall t: Split ensures multiset(held[t]) == multiset(Ids(tasks, InSplit(next, t))) {
      InSplitPlaced(place, k, s, t);
      if t == s { IdsSplit(tasks, InSplit(place, t), {k}); } else { assert InSplit(next, t) == InSplit(place, t); }
    }
  }

  lemma CountOne(tasks: seq<Task>, place: Placement, library: nat, filled: Fill, k: Key, s: Split, size: nat)
    requires Counted(tasks, place, library, filled) && k !in place && k.library == library
    requires size == |Ids(tasks, {k})|
    ensures Counted(tasks, place[k := s], library, filled[s := filled[s] + size])
  {
    var next, count := place[k := s], filled[s := filled[s] + size];
    forall t: Split ensures count[t] == |Ids(tasks, InSplitOf(next, library, t))| {
      InSplitOfPlaced(place, library, k, s, t);
      if t == s {
        IdsSplit(tasks, InSplitOf(place, library, t), {k});
      } else {
        assert InSplitOf(next, library, t) == InSplitOf(place, library, t);
      }
    }
  }

  /** The number of tasks in the listed families. */
  function Total(fam: Families, order: seq<Key>): nat
    requires forall k :: k in order ==> k in fam
  {
    if order == [] then 0 else |fam[order[0]]| + Total(fam, order[1..])
  }

  lemma {:induction false} TotalIsCount(tasks: seq<Task>, fam: Families, order: seq<Key>)
    requires Grouped(tasks, fam) && Distinct(order) && forall k :: k in order ==> k in fam
    ensures Total(fam, order) == |Ids(tasks, Elements(order))|
  {
    if order == [] {
      IdsNone(tasks);
      assert Elements(order) == {};
    } else {
      TotalIsCount(tasks, fam, order[1..]);
      assert order == [order[0]] + order[1..];
      assert Elements(order) == {order[0]} + Elements(order[1..]);
      IdsSplit(tasks, {order[0]}, Elements(order[1..]));
    }
  }

  function Size(fam: Families, k: Key): nat { if k in fam then |fam[k]| else 0 }

  /** Larger families first. */
  function LargerFirst(fam: Families): (Key, Key) -> bool { (k: Key, l: Key) => Size(fam, k) >= Size(fam, l) }

  /** No family of the library has more than `f` members. */
  ghost predicate FamiliesWithin(fam: Families, library: nat, f: nat) {
    f > 0 && forall k :: k in fam && k.library == library ==> |fam[k]| <= f
  }

  /** Each split's count of the library's tasks is above its share less five families, and below its share
      plus one. */
  ghost predicate Proportional(tasks: seq<Task>, fam: Families, place: Placement, library: nat) {
    var n := |Ids(tasks, Library(fam, library))|;
    forall f: nat, s: Split :: FamiliesWithin(fam, library, f) ==>
      Quota(s, n) - 500 * f < 100 * |Ids(tasks, InSplitOf(place, library, s))| < Quota(s, n) + 100 * f
  }

  /** The state after the families `done` of a library are placed. */
  ghost predicate PlacedUpTo(tasks: seq<Task>, fam: Families, library: nat, done: set<Key>, n: nat, f: nat,
                             filled: Fill, place: Placement, place0: Placement)
  {
    && place.Keys == place0.Keys + done
    && (forall k <- place0 :: place[k] == place0[k])
    && Counted(tasks, place, library, filled)
    && SumOf(filled) == |Ids(tasks, done)|
    && NoneOver(n, filled, f)
  }

  /** What the loop over one library's families needs of them. */
  ghost predicate Listing(tasks: seq<Task>, fam: Families, library: nat, order: seq<Key>, place0: Placement, n: nat) {
    && Grouped(tasks, fam)
    && Distinct(order)
    && Elements(order) == Library(fam, library)
    && Library(fam, library) !! place0.Keys
    && n == |Ids(tasks, Elements(order))|
  }

  lemma RoomLeft(tasks: seq<Task>, fam: Families, library: nat, order: seq<Key>, place0: Placement, n: nat, i: nat)
    requires Listing(tasks, fam, library, order, place0, n) && i < |order|
    ensures order[i] in fam && order[i].library == library && order[i] !in place0
    ensures order[i] !in Elements(order[..i])
    ensures Elements(order[..i + 1]) == Elements(order[..i]) + {order[i]}
    ensures |Ids(tasks, Elements(order[..i]))| + |fam[order[i]]| == |Ids(tasks, Elements(order[..i + 1]))| <= n
    ensures fam[order[i]] == Ids(tasks, {order[i]}) != []
  {
    var k, done := order[i], Elements(order[..i]);
    assert k in Elements(order);
    assert order[..i + 1] == order[..i] + [k];
    assert Elements(order[..i + 1]) == done + {k};
    IdsSplit(tasks, done, {k});
    var later := Elements(order) - Elements(order[..i + 1]);
    assert Elements(order) == Elements(order[..i + 1]) + later;
    IdsSplit(tasks, Elements(order[..i + 1]), later);
  }

  lemma PlaceNext(tasks: seq<Task>, fam: Families, library: nat, done: set<Key>, k: Key, n: nat, f: nat,
                  filled: Fill, place: Placement, place0: Placement, s: Split, members: seq<nat>)
    requires PlacedUpTo(tasks, fam, library, done, n, f, filled, place, place0)
    requires k in fam && k.library == library && k !in place0 && k !in done
    requires |Ids(tasks, done)| + |members| == |Ids(tasks, done + {k})| <= n
    requires s in filled && Deficit(n, filled, s) > 0 && members == fam[k] == Ids(tasks, {k}) != [] && |members| <= f
    ensures k !in place
    ensures PlacedUpTo(tasks, fam, library, done + {k}, n, f, filled[s := filled[s] + |members|],
                       place[k := s], place0)
  {
    var size := |members|;
    var filled', place' := filled[s := filled[s] + size], place[k := s];
    assert Counted(tasks, place', library, filled') by { CountOne(tasks, place, library, filled, k, s, size); }
    assert SumOf(filled') == |Ids(tasks, done + {k})| by { SumPlaced(filled, s, size); }
    assert NoneOver(n, filled', f) by { PlacingKeepsNoneOver(n, filled, f, s, size); }
    KeysNext(place, place0, done, k, s);
  }

  lemma KeysNext(place: Placement, place0: Placement, done: set<Key>, k: Key, s: Split)
    requires place.Keys == place0.Keys + done && k !in place0 && forall l <- place0 :: place[l] == place0[l]
    ensures place[k := s].Keys == place0.Keys + (done + {k}) && forall l <- place0 :: place[k := s][l] == place0[l]
  {
  }

  lemma SumPlaced(filled: Fill, s: Split, size: nat)
    requires Full(filled)
    ensures SumOf(filled[s := filled[s] + size]) == SumOf(filled) + size
  {
    match s {
      case Main => case Source => case Discovery => case Calibration => case Dev => case Reserve =>
    }
  }

  lemma NothingPlaced(tasks: seq<Task>, fam: Families, library: nat, order: seq<Key>, n: nat, f: nat, filled: Fill,
                      place0: Placement)
    requires Listing(tasks, fam, library, order, place0, n) && Full(filled) && forall s: Split :: filled[s] == 0
    requires f > 0 && forall k <- place0 :: k.library != library
    ensures PlacedUpTo(tasks, fam, library, {}, n, f, filled, place0, place0)
  {
    IdsNone(tasks);
    forall s: Split ensures InSplitOf(place0, library, s) == {} {
    }
  }

  lemma AllPlaced(tasks: seq<Task>, fam: Families, library: nat, order: seq<Key>, n: nat, f: nat, filled: Fill,
                  place: Placement, place0: Placement)
    requires Listing(tasks, fam, library, order, place0, n)
    requires PlacedUpTo(tasks, fam, library, Elements(order), n, f, filled, place, place0)
    requires f > 0 && forall g :: FamiliesWithin(fam, library, g) ==> f <= g
    ensures place.Keys == place0.Keys + Library(fam, library) && Proportional(tasks, fam, place, library)
  {
    forall g: nat, s: Split | FamiliesWithin(fam, library, g)
      ensures Quota(s, n) - 500 * g < 100 * |Ids(tasks, InSplitOf(place, library, s))| < Quota(s, n) + 100 * g
    {
      NoneFarUnder(n, filled, f, s);
      assert Deficit(n, filled, s) > -100 * f;
    }
  }

  /** The size of the largest listed family. */
  ghost function Largest(fam: Families, order: seq<Key>): nat {
    if order == [] then 1
    else var rest := Largest(fam, order[1..]); if Size(fam, order[0]) > rest then Size(fam, order[0]) else rest
  }

  lemma {:induction false} LargestIs(fam: Families, order: seq<Key>)
    ensures Largest(fam, order) > 0 && forall k :: k in order ==> Size(fam, k) <= Largest(fam, order)
    ensures Largest(fam, order) == 1 || exists k :: k in order && Size(fam, k) == Largest(fam, order)
  {
    if order != [] {
      LargestIs(fam, order[1..]);
      assert order == [order[0]] + order[1..];
    }
  }

  lemma LargestIsLeast(fam: Families, library: nat, order: seq<Key>)
    requires forall k :: k in order <==> k in fam && k.library == library
    ensures Largest(fam, order) > 0 && FamiliesWithin(fam, library, Largest(fam, order))
    ensures forall g :: FamiliesWithin(fam, library, g) ==> Largest(fam, order) <= g
  {
    LargestIs(fam, order);
    forall k | k in fam && k.library == library ensures |fam[k]| <= Largest(fam, order) {
      assert k in order && Size(fam, k) == |fam[k]|;
    }
    forall g | FamiliesWithin(fam, library, g) ensures Largest(fam, order) <= g {
      if k :| k in order && Size(fam, k) == Largest(fam, order) { assert Size(fam, k) == |fam[k]|; }
    }
  }

  /** How many members the families `done` have in a split. */
  function Held(fam: Families, place: Placement, done: seq<Key>, s: Split): nat {
    if done == [] then 0
    else var k := done[|done| - 1];
         Held(fam, place, done[..|done| - 1], s) + (if k in place && place[k] == s then Size(fam, k) else 0)
  }

  /** `filled` is how far the splits are filled when the families `done` are placed. */
  ghost predicate FilledBy(fam: Families, place: Placement, done: seq<Key>, filled: Fill) {
    Full(filled) && forall s: Split :: filled[s] == Held(fam, place, done, s)
  }

  /** Each of the families `done` went to the split that was neediest when its turn came. */
  ghost predicate Greedy(fam: Families, n: nat, done: seq<Key>, place: Placement) {
    done == []
    || var k, before := done[|done| - 1], done[..|done| - 1];
       && Greedy(fam, n, before, place)
       && k in place
       && exists filled :: FilledBy(fam, place, before, filled) && Neediest(n, filled, place[k])
  }

  lemma {:induction false} HeldKept(fam: Families, place: Placement, done: seq<Key>, k: Key, s: Split, t: Split)
    requires k !in done
    ensures Held(fam, place[k := s], done, t) == Held(fam, place, done, t)
  {
    if done != [] { HeldKept(fam, place, done[..|done| - 1], k, s, t); }
  }

  lemma FilledKept(fam: Families, place: Placement, done: seq<Key>, k: Key, s: Split, filled: Fill)
    requires k !in done && FilledBy(fam, place, done, filled)
    ensures FilledBy(fam, place[k := s], done, filled)
  {
    forall t: Split ensures filled[t] == Held(fam, place[k := s], done, t) { HeldKept(fam, place, done, k, s, t); }
  }

  lemma {:induction false} GreedyKept(fam: Families, n: nat, done: seq<Key>, place: Placement, k: Key, s: Split)
    requires k !in done && Greedy(fam, n, done, place)
    ensures Greedy(fam, n, done, place[k := s])
  {
    if done != [] {
      var last, before := done[|done| - 1], done[..|done| - 1];
      GreedyKept(fam, n, before, place, k, s);
      var filled :| FilledBy(fam, place, before, filled) && Neediest(n, filled, place[last]);
      FilledKept(fam, place, before, k, s, filled);
    }
  }

  lemma GreedyOne(fam: Families, n: nat, done: seq<Key>, k: Key, place: Placement, s: Split, filled: Fill)
    requires k !in done && Greedy(fam, n, done, place) && FilledBy(fam, place, done, filled)
    requires Neediest(n, filled, s)
    ensures Greedy(fam, n, done + [k], place[k := s])
  {
    var all := done + [k];
    assert all[..|all| - 1] == done && all[|all| - 1] == k;
    GreedyKept(fam, n, done, place, k, s);
    FilledKept(fam, place, done, k, s, filled);
  }

  lemma HeldOneMore(fam: Families, place: Placement, done: seq<Key>, k: Key, s: Split, t: Split)
    requires k !in done
    ensures Held(fam, place[k := s], done + [k], t) == Held(fam, place, done, t) + (if t == s then Size(fam, k) else 0)
  {
    var all := done + [k];
    assert all[..|all| - 1] == done && all[|all| - 1] == k;
    HeldKept(fam, place, done, k, s, t);
  }

  lemma FillOne(fam: Families, done: seq<Key>, k: Key, place: Placement, s: Split, filled: Fill, size: nat)
    requires k !in done && FilledBy(fam, place, done, filled) && size == Size(fam, k)
    ensures FilledBy(fam, place[k := s], done + [k], filled[s := filled[s] + size])
  {
    var next := filled[s := filled[s] + size];
    forall t: Split ensures t in next && next[t] == Held(fam, place[k := s], done + [k], t) {
      HeldOneMore(fam, place, done, k, s, t);
      assert filled[t] == Held(fam, place, done, t);
    }
  }

  /** The loop invariant: the families `order[..i]` are placed. */
  ghost predicate Reached(tasks: seq<Task>, fam: Families, library: nat, order: seq<Key>, i: nat, n: nat, f: nat,
                          filled: Fill, place: Placement, place0: Placement, assign: Assignment)
    requires i <= |order|
  {
    && PlacedUpTo(tasks, fam, library, Elements(order[..i]), n, f, filled, place, place0)
    && FilledBy(fam, place, order[..i], filled)
    && Greedy(fam, n, order[..i], place)
    && Placed(tasks, place, assign)
  }

  lemma ReachNext(tasks: seq<Task>, fam: Families, library: nat, order: seq<Key>, i: nat, n: nat, f: nat,
                  filled: Fill, place: Placement, place0: Placement, assign: Assignment, k: Key, s: Split,
                  members: seq<nat>)
    requires Listing(tasks, fam, library, order, place0, n) && FamiliesWithin(fam, library, f) && i < |order|
    requires Reached(tasks, fam, library, order, i, n, f, filled, place, place0, assign)
    requires k == order[i] && k in fam && members == fam[k] && Neediest(n, filled, s)
    ensures Reached(tasks, fam, library, order, i + 1, n, f, filled[s := filled[s] + |members|], place[k := s],
                    place0, assign[s := assign[s] + members])
  {
    TakeOneMore(order, i);
    ReachCounts(tasks, fam, library, order, i, n, f, filled, place, place0, assign, k, s, members);
    ReachGreedy(fam, n, order, i, filled, place, k, s, members);
  }

  lemma ReachCounts(tasks: seq<Task>, fam: Families, library: nat, order: seq<Key>, i: nat, n: nat, f: nat,
                    filled: Fill, place: Placement, place0: Placement, assign: Assignment, k: Key, s: Split,
                    members: seq<nat>)
    requires Listing(tasks, fam, library, order, place0, n) && FamiliesWithin(fam, library, f) && i < |order|
    requires PlacedUpTo(tasks, fam, library, Elements(order[..i]), n, f, filled, place, place0)
    requires Placed(tasks, place, assign) && k == order[i] && k in fam && members == fam[k] && Neediest(n, filled, s)
    ensures PlacedUpTo(tasks, fam, library, Elements(order[..i + 1]), n, f, filled[s := filled[s] + |members|],
                       place[k := s], place0)
    ensures Placed(tasks, place[k := s], assign[s := assign[s] + members])
  {
    RoomLeft(tasks, fam, library, order, place0, n, i);
    SomeSplitNeedy(n, filled, s);
    PlaceNext(tasks, fam, library, Elements(order[..i]), k, n, f, filled, place, place0, s, members);
    PlaceOne(tasks, place, assign, k, s, members);
  }

  lemma ReachGreedy(fam: Families, n: nat, order: seq<Key>, i: nat, filled: Fill, place: Placement, k: Key,
                    s: Split, members: seq<nat>)
    requires Distinct(order) && i < |order| && k == order[i] && k in fam && members == fam[k]
    requires FilledBy(fam, place, order[..i], filled) && Greedy(fam, n, order[..i], place) && Neediest(n, filled, s)
    ensures FilledBy(fam, place[k := s], order[..i + 1], filled[s := filled[s] + |members|])
    ensures Greedy(fam, n, order[..i + 1], place[k := s])
  {
    var done := order[..i];
    TakeOneMore(order, i);
    GreedyOne(fam, n, done, k, place, s, filled);
    FillOne(fam, done, k, place, s, filled, |members|);
  }

  lemma ReachFirst(tasks: seq<Task>, fam: Families, library: nat, order: seq<Key>, n: nat, f: nat, filled: Fill,
                   place0: Placement, assign: Assignment)
    requires Listing(tasks, fam, library, order, place0, n) && f > 0 && Placed(tasks, place0, assign)
    requires Full(filled) && (forall s: Split :: filled[s] == 0) && forall k <- place0 :: k.library != library
    ensures Reached(tasks, fam, library, order, 0, n, f, filled, place0, place0, assign)
  {
    NothingPlaced(tasks, fam, library, order, n, f, filled, place0);
    Prefixes(order);
  }

  /** `sorted` has the families of `order`, those with more members first, and those with equally many as in `order`. */
  ghost predicate LargestFirst(fam: Families, order: seq<Key>, sorted: seq<Key>) {
    && multiset(sorted) == multiset(order)
    && forall i, j :: 0 <= i < j < |sorted| && sorted[i] in fam && sorted[j] in fam ==>
         |fam[sorted[i]]| > |fam[sorted[j]]|
         || (|fam[sorted[i]]| == |fam[sorted[j]]| && Before(order, sorted[i], sorted[j]))
  }

  lemma SortLargest(fam: Families, order: seq<Key>)
    ensures LargestFirst(fam, order, Sort(order, LargerFirst(fam)))
  {
    var sorted := Sort(order, LargerFirst(fam));
    SortSorts(order, LargerFirst(fam));
    forall i, j | 0 <= i < j < |sorted| && sorted[i] in fam && sorted[j] in fam
      ensures |fam[sorted[i]]| > |fam[sorted[j]]|
              || (|fam[sorted[i]]| == |fam[sorted[j]]| && Before(order, sorted[i], sorted[j]))
    {
      assert LargerFirst(fam)(sorted[i], sorted[j]) && Before(sorted, sorted[i], sorted[j]);
      if |fam[sorted[i]]| == |fam[sorted[j]]| { SortStable(order, LargerFirst(fam), sorted[i], sorted[j]); }
    }
  }

  /** Places the families of one library, the largest first, each where the deficit is largest. */
  method PlaceLibrary(ghost tasks: seq<Task>, fam: Families, library: nat, order: seq<Key>, assign0: Assignment,
                      place0: Placement)
    returns (assign: Assignment, place: Placement)
    requires Grouped(tasks, fam) && Distinct(order) && forall k :: k in order <==> k in fam && k.library == library
    requires Placed(tasks, place0, assign0) && forall k <- place0 :: k.library != library
    ensures Placed(tasks, place, assign) && Proportional(tasks, fam, place, library)
    ensures place.Keys == place0.Keys + Library(fam, library) && forall k <- place0 :: place[k] == place0[k]
    ensures Greedy(fam, Total(fam, order), Sort(order, LargerFirst(fam)), place)
    ensures LargestFirst(fam, order, Sort(order, LargerFirst(fam)))
  {
    var sorted := Sort(order, LargerFirst(fam));
    var n := Total(fam, order);
    SortListing(tasks, fam, library, order, place0, n);
    SortLargest(fam, order);
    assign, place := PlaceEach(tasks, fam, library, sorted, n, Largest(fam, order), assign0, place0) by {
      LargestIsLeast(fam, library, order);
    }
  }

  /** The loop over the families of a library. */
  method PlaceEach(ghost tasks: seq<Task>, fam: Families, library: nat, sorted: seq<Key>, n: nat, ghost f: nat,
                   assign0: Assignment, place0: Placement)
    returns (assign: Assignment, place: Placement)
    requires Listing(tasks, fam, library, sorted, place0, n) && FamiliesWithin(fam, library, f)
    requires forall g :: FamiliesWithin(fam, library, g) ==> f <= g
    requires Placed(tasks, place0, assign0) && forall k <- place0 :: k.library != library
    ensures Placed(tasks, place, assign) && Proportional(tasks, fam, place, library)
    ensures place.Keys == place0.Keys + Library(fam, library) && forall k <- place0 :: place[k] == place0[k]
    ensures Greedy(fam, n, sorted, place)
  {
    assign := assign0;
    place := place0;
    var filled: Fill := map[Main := 0, Source := 0, Discovery := 0, Calibration := 0, Dev := 0, Reserve := 0];
    ZerosFull(filled);
    ReachFirst(tasks, fam, library, sorted, n, f, filled, place0, assign);
    for i := 0 to |sorted|
      invariant Reached(tasks, fam, library, sorted, i, n, f, filled, place, place0, assign)
    {
      var k := sorted[i];
      RoomLeft(tasks, fam, library, sorted, place0, n, i);
      var s := FindNeediest(n, filled);
      var members := fam[k];
      ReachNext(tasks, fam, library, sorted, i, n, f, filled, place, place0, assign, k, s, members);
      assign := assign[s := assign[s] + members];
      filled := filled[s := filled[s] + |members|];
      place := place[k := s];
    }
    Prefixes(sorted);
    AllPlaced(tasks, fam, library, sorted, n, f, filled, place, place0);
  }

  lemma Prefixes(ks: seq<Key>)
    ensures Elements(ks[..0]) == {} && ks[..|ks|] == ks
  {
  }

  lemma ZerosFull(filled: Fill)
    requires filled == map[Main := 0, Source := 0, Discovery := 0, Calibration := 0, Dev := 0, Reserve := 0]
    ensures Full(filled) && forall s: Split :: filled[s] == 0
  {
    forall s: Split ensures s in filled && filled[s] == 0 {
      match s {
        case Main => case Source => case Discovery => case Calibration => case Dev => case Reserve =>
      }
    }
  }

  lemma SortListing(tasks: seq<Task>, fam: Families, library: nat, order: seq<Key>, place0: Placement, n: nat)
    requires Grouped(tasks, fam) && Distinct(order) && forall k :: k in order <==> k in fam && k.library == library
    requires (forall k <- place0 :: k.library != library) && n == Total(fam, order)
    ensures Listing(tasks, fam, library, Sort(order, LargerFirst(fam)), place0, n)
  {
    var sorted := Sort(order, LargerFirst(fam));
    SortSorts(order, LargerFirst(fam));
    SameElements(sorted, order);
    DistinctIffMultiset(order);
    DistinctIffMultiset(sorted);
    TotalIsCount(tasks, fam, order);
    assert Elements(sorted) == Elements(order) == Library(fam, library);
  }

  // ---------------------------------------------------------------- the whole partition

  ghost predicate HasFamily(tasks: seq<Task>, k: Key) { exists t :: t in tasks && t.key == k }

  /** `orders` lists, for every library, its families, each once: the shuffled order they are taken in. */
  ghost predicate Orders(tasks: seq<Task>, orders: map<nat, seq<Key>>) {
    && (forall t :: t in tasks ==> t.key.library in orders)
    && (forall l <- orders :: Distinct(orders[l]))
    && (forall l <- orders :: forall k :: k in orders[l] <==> k.library == l && HasFamily(tasks, k))
  }

  lemma GroupedHas(tasks: seq<Task>, fam: Families, k: Key)
    requires Grouped(tasks, fam)
    ensures k in fam <==> HasFamily(tasks, k)
  {
    var ids := Ids(tasks, {k});
    if ids != [] { IdsAre(tasks, {k}, ids[0]); }
    if t :| t in tasks && t.key == k { IdsAre(tasks, {k}, t.id); }
  }

  lemma ProportionalKept(tasks: seq<Task>, fam: Families, place0: Placement, place: Placement, l: nat, library: nat)
    requires Proportional(tasks, fam, place0, library) && l != library
    requires place.Keys == place0.Keys + Library(fam, l) && forall k <- place0 :: place[k] == place0[k]
    ensures Proportional(tasks, fam, place, library)
  {
    forall s: Split ensures InSplitOf(place, library, s) == InSplitOf(place0, library, s) {
    }
  }

  /** The state after the libraries `done` are placed. */
  ghost predicate LibrariesPlaced(tasks: seq<Task>, fam: Families, done: set<nat>, place: Placement,
                                  assign: Assignment)
  {
    && Placed(tasks, place, assign)
    && (forall k :: k in place <==> k in fam && k.library in done)
    && forall l <- done :: Proportional(tasks, fam, place, l)
  }

  lemma OneMoreLibrary(tasks: seq<Task>, fam: Families, done: set<nat>, l: nat, place0: Placement,
                       assign0: Assignment, place: Placement, assign: Assignment)
    requires LibrariesPlaced(tasks, fam, done, place0, assign0) && l !in done
    requires Placed(tasks, place, assign) && Proportional(tasks, fam, place, l)
    requires place.Keys == place0.Keys + Library(fam, l) && forall k <- place0 :: place[k] == place0[k]
    ensures LibrariesPlaced(tasks, fam, done + {l}, place, assign)
  {
    forall m | m in done ensures Proportional(tasks, fam, place, m) {
      ProportionalKept(tasks, fam, place0, place, l, m);
    }
  }

  lemma EmptyPlaced(tasks: seq<Task>, fam: Families, assign: Assignment)
    requires assign == map[Source := [], Dev := [], Discovery := [], Calibration := [], Main := [], Reserve := []]
    ensures LibrariesPlaced(tasks, fam, {}, map[], assign)
  {
    forall s: Split ensures s in assign && assign[s] == [] && InSplit(map[], s) == {} {
      match s {
        case Main => case Source => case Discovery => case Calibration => case Dev => case Reserve =>
      }
    }
    IdsNone(tasks);
  }

  /** Places the families of every library. */
  method PlaceAll(ghost tasks: seq<Task>, fam: Families, orders: map<nat, seq<Key>>)
    returns (assign: Assignment, place: Placement)
    requires Grouped(tasks, fam) && Orders(tasks, orders)
    ensures LibrariesPlaced(tasks, fam, orders.Keys, place, assign)
  {
    assign := map[Source := [], Dev := [], Discovery := [], Calibration := [], Main := [], Reserve := []];
    place := map[];
    EmptyPlaced(tasks, fam, assign);
    var left := orders.Keys;
    while left != {}
      invariant left <= orders.Keys && LibrariesPlaced(tasks, fam, orders.Keys - left, place, assign)
    {
      var l :| l in left;
      var place0, assign0 := place, assign;
      OrderListed(tasks, fam, orders, l);
      assign, place := PlaceLibrary(tasks, fam, l, orders[l], assign0, place0);
      OneLess(orders.Keys, left, l);
      OneMoreLibrary(tasks, fam, orders.Keys - left, l, place0, assign0, place, assign);
      left := left - {l};
    }
    assert orders.Keys - {} == orders.Keys;
  }

  lemma OrderListed(tasks: seq<Task>, fam: Families, orders: map<nat, seq<Key>>, l: nat)
    requires Grouped(tasks, fam) && Orders(tasks, orders) && l in orders
    ensures Distinct(orders[l]) && forall k :: k in orders[l] <==> k in fam && k.library == l
  {
    forall k ensures k in orders[l] <==> k in fam && k.library == l { GroupedHas(tasks, fam, k); }
  }

  // ---------------------------------------------------------------- the span audit

  /** The split a task is recorded under; the last one that lists it wins. */
  function SplitOf(assign: Assignment, x: nat): Split
    requires Full(assign)
  {
    if x in assign[Reserve] then Reserve
    else if x in assign[Main] then Main
    else if x in assign[Calibration] then Calibration
    else if x in assign[Discovery] then Discovery
    else if x in assign[Dev] then Dev
    else Source
  }

  /** The families with members recorded under different splits. */
  ghost function Spanning(fam: Families, assign: Assignment): set<Key>
    requires Full(assign)
  {
    set k | k in fam && exists x, y :: x in fam[k] && y in fam[k] && SplitOf(assign, x) != SplitOf(assign, y)
  }

  function SplitsOf(assign: Assignment, members: seq<nat>): set<Split>
    requires Full(assign)
  {
    set x | x in members :: SplitOf(assign, x)
  }

  lemma ManySplitsIff(assign: Assignment, members: seq<nat>)
    requires Full(assign)
    ensures |SplitsOf(assign, members)| > 1 <==>
            exists x, y :: x in members && y in members && SplitOf(assign, x) != SplitOf(assign, y)
  {
    var splits := SplitsOf(assign, members);
    if x, y :| x in members && y in members && SplitOf(assign, x) != SplitOf(assign, y) {
      var pair := {SplitOf(assign, x), SplitOf(assign, y)};
      assert pair <= splits && |pair| == 2;
      assert splits == pair + (splits - pair);
    } else if splits != {} {
      var s :| s in splits;
      assert splits == {s};
    }
  }

  /** Counts the families that span several splits. */
  method CountSpans(fam: Families, assign: Assignment) returns (span: nat)
    requires Full(assign)
    ensures span == |Spanning(fam, assign)|
  {
    span := 0;
    var left := fam.Keys;
    ghost var found: set<Key> := {};
    while left != {}
      invariant left <= fam.Keys && span == |found|
      invariant forall k :: k in found <==> k in Spanning(fam, assign) && k !in left
    {
      var k :| k in left;
      ManySplitsIff(assign, fam[k]);
      if |SplitsOf(assign, fam[k])| > 1 {
        span := span + 1;
        found := found + {k};
      }
      left := left - {k};
    }
    assert found == Spanning(fam, assign);
  }

  ghost predicate DistinctIds(tasks: seq<Task>) {
    forall t, v :: t in tasks && v in tasks && t.id == v.id ==> t == v
  }

  /** A task is in the split its family was placed in, and in no other. */
  lemma InItsSplit(tasks: seq<Task>, place: Placement, assign: Assignment, t: Task, s: Split)
    requires DistinctIds(tasks) && Placed(tasks, place, assign) && t in tasks && t.key in place
    ensures t.id in assign[s] <==> place[t.key] == s
  {
    var ids := Ids(tasks, InSplit(place, s));
    SameElements(assign[s], ids);
    IdsAre(tasks, InSplit(place, s), t.id);
  }

  lemma RecordedWherePlaced(tasks: seq<Task>, place: Placement, assign: Assignment, t: Task)
    requires DistinctIds(tasks) && Placed(tasks, place, assign) && t in tasks && t.key in place
    ensures SplitOf(assign, t.id) == place[t.key]
  {
    InItsSplit(tasks, place, assign, t, Reserve);
    InItsSplit(tasks, place, assign, t, Main);
    InItsSplit(tasks, place, assign, t, Calibration);
    InItsSplit(tasks, place, assign, t, Discovery);
    InItsSplit(tasks, place, assign, t, Dev);
    InItsSplit(tasks, place, assign, t, Source);
  }

  /** No family spans two splits. */
  lemma NoneSpans(tasks: seq<Task>, fam: Families, place: Placement, assign: Assignment)
    requires DistinctIds(tasks) && Grouped(tasks, fam) && Placed(tasks, place, assign) && place.Keys == fam.Keys
    ensures Spanning(fam, assign) == {}
  {
    forall k, x | k in fam && x in fam[k] ensures SplitOf(assign, x) == place[k] {
      IdsAre(tasks, {k}, x);
      var t :| t in tasks && t.key == k && t.id == x;
      RecordedWherePlaced(tasks, place, assign, t);
    }
  }

  function Flat(assign: Assignment): seq<nat>
    requires Full(assign)
  {
    assign[Source] + assign[Dev] + assign[Discovery] + assign[Calibration] + assign[Main] + assign[Reserve]
  }

  lemma SixParts(tasks: seq<Task>, a: set<Key>, b: set<Key>, c: set<Key>, d: set<Key>, e: set<Key>, f: set<Key>)
    requires a !! b !! c !! d !! e !! f
    ensures multiset(Ids(tasks, a + b + c + d + e + f))
         == multiset(Ids(tasks, a)) + multiset(Ids(tasks, b)) + multiset(Ids(tasks, c)) + multiset(Ids(tasks, d))
            + multiset(Ids(tasks, e)) + multiset(Ids(tasks, f))
  {
    IdsSplit(tasks, a, b);
    IdsSplit(tasks, a + b, c);
    IdsSplit(tasks, a + b + c, d);
    IdsSplit(tasks, a + b + c + d, e);
    IdsSplit(tasks, a + b + c + d + e, f);
  }

  lemma FlatParts(assign: Assignment)
    requires Full(assign)
    ensures multiset(Flat(assign))
         == multiset(assign[Source]) + multiset(assign[Dev]) + multiset(assign[Discovery])
            + multiset(assign[Calibration]) + multiset(assign[Main]) + multiset(assign[Reserve])
  {
  }

  lemma IdParts(tasks: seq<Task>, place: Placement)
    ensures multiset(Ids(tasks, place.Keys))
         == multiset(Ids(tasks, InSplit(place, Source))) + multiset(Ids(tasks, InSplit(place, Dev)))
            + multiset(Ids(tasks, InSplit(place, Discovery))) + multiset(Ids(tasks, InSplit(place, Calibration)))
            + multiset(Ids(tasks, InSplit(place, Main))) + multiset(Ids(tasks, InSplit(place, Reserve)))
  {
    SixParts(tasks, InSplit(place, Source), InSplit(place, Dev), InSplit(place, Discovery),
             InSplit(place, Calibration), InSplit(place, Main), InSplit(place, Reserve));
    EverySplit(place);
  }

  lemma HeldIds(tasks: seq<Task>, place: Placement, assign: Assignment)
    requires Placed(tasks, place, assign)
    ensures multiset(Flat(assign)) == multiset(Ids(tasks, place.Keys))
  {
    FlatParts(assign);
    IdParts(tasks, place);
  }

  /** Placing every family places every task once. */
  lemma WholePlaced(tasks: seq<Task>, place: Placement, assign: Assignment)
    requires Placed(tasks, place, assign) && forall t :: t in tasks ==> t.key in place
    ensures multiset(Flat(assign)) == multiset(Ids(tasks, place.Keys)) && |Flat(assign)| == |tasks|
  {
    HeldIds(tasks, place, assign);
    AllIds(tasks, place.Keys);
    assert |multiset(Flat(assign))| == |Flat(assign)|;
    assert |multiset(Ids(tasks, place.Keys))| == |tasks|;
  }

  lemma EverySplit(place: Placement)
    ensures InSplit(place, Source) + InSplit(place, Dev) + InSplit(place, Discovery) + InSplit(place, Calibration)
            + InSplit(place, Main) + InSplit(place, Reserve) == place.Keys
  {
    forall k | k in place
      ensures k in InSplit(place, Source) + InSplit(place, Dev) + InSplit(place, Discovery)
                   + InSplit(place, Calibration) + InSplit(place, Main) + InSplit(place, Reserve)
    {
      assert k in InSplit(place, place[k]);
    }
  }

  lemma {:induction false} IdsCount(tasks: seq<Task>, keys: set<Key>, p: Task -> bool)
    requires forall t <- tasks :: p(t) <==> t.key in keys
    ensures |Ids(tasks, keys)| == |Where(tasks, p)|
  {
    if tasks == [] {
      assert Where(tasks, p) == {};
    } else {
      var last := |tasks| - 1;
      assert tasks == tasks[..last] + [tasks[last]];
      IdsCount(tasks[..last], keys, p);
      WhereLast(tasks[..last], tasks[last], p);
    }
  }

  lemma {:induction false} Biggest(fam: Families, keys: set<Key>) returns (k: Key)
    requires keys != {} && keys <= fam.Keys
    ensures k in keys && forall l <- keys :: |fam[l]| <= |fam[k]|
  {
    k :| k in keys;
    var rest := keys - {k};
    if rest != {} {
      var l := Biggest(fam, rest);
      if |fam[l]| > |fam[k]| { k := l; }
    }
  }

  lemma LibrarySize(tasks: seq<Task>, fam: Families, l: nat)
    requires Grouped(tasks, fam)
    ensures |Ids(tasks, Library(fam, l))| == |set i | 0 <= i < |tasks| && tasks[i].key.library == l|
  {
    var here := (t: Task) => t.key.library == l;
    forall t | t in tasks ensures here(t) <==> t.key in Library(fam, l) { GroupedHas(tasks, fam, t.key); }
    IdsCount(tasks, Library(fam, l), here);
    assert Where(tasks, here) == set i | 0 <= i < |tasks| && tasks[i].key.library == l;
  }

  lemma LibraryHeld(tasks: seq<Task>, fam: Families, place: Placement, assign: Assignment, l: nat, s: Split)
    requires DistinctIds(tasks) && Grouped(tasks, fam) && Placed(tasks, place, assign) && place.Keys == fam.Keys
    ensures |Ids(tasks, InSplitOf(place, l, s))|
         == |set i | 0 <= i < |tasks| && tasks[i].key.library == l && tasks[i].id in assign[s]|
  {
    var ids := assign[s];
    var here := (t: Task) => t.key.library == l && t.id in ids;
    forall t | t in tasks ensures here(t) <==> t.key in InSplitOf(place, l, s) {
      HeldIff(tasks, fam, place, assign, t, s);
    }
    IdsCount(tasks, InSplitOf(place, l, s), here);
    assert Where(tasks, here) == set i | 0 <= i < |tasks| && tasks[i].key.library == l && tasks[i].id in ids;
  }

  lemma HeldIff(tasks: seq<Task>, fam: Families, place: Placement, assign: Assignment, t: Task, s: Split)
    requires DistinctIds(tasks) && Grouped(tasks, fam) && Placed(tasks, place, assign) && place.Keys == fam.Keys
    requires t in tasks
    ensures t.id in assign[s] <==> t.key in InSplitOf(place, t.key.library, s)
  {
    GroupedHas(tasks, fam, t.key);
    InItsSplit(tasks, place, assign, t, s);
  }

  lemma FamilySize(tasks: seq<Task>, fam: Families, k: Key)
    requires Grouped(tasks, fam) && k in fam
    ensures |fam[k]| == |set i | 0 <= i < |tasks| && tasks[i].key == k|
  {
    var here := (t: Task) => t.key == k;
    IdsCount(tasks, {k}, here);
    assert Where(tasks, here) == set i | 0 <= i < |tasks| && tasks[i].key == k;
  }

  /** The tasks of library `l` in split `s` are more than the split's percentage of the library less five times the size
      of family `k`, and less than that percentage plus the size. */
  ghost predicate InShare(tasks: seq<Task>, assign: Assignment, l: nat, k: Key, s: Split)
    requires s in assign
  {
    var f := |set i | 0 <= i < |tasks| && tasks[i].key == k|;
    var n := |set i | 0 <= i < |tasks| && tasks[i].key.library == l|;
    var held := |set i | 0 <= i < |tasks| && tasks[i].key.library == l && tasks[i].id in assign[s]|;
    var percent := match s
      case Main => 45
      case Source => 20
      case Discovery => 12
      case Calibration => 10
      case Dev => 8
      case Reserve => 5;
    percent * n - 500 * f < 100 * held < percent * n + 100 * f
  }

  /** ... for some family of the library. */
  ghost predicate WithinShare(tasks: seq<Task>, assign: Assignment, l: nat, s: Split)
    requires s in assign
  {
    exists u :: u in tasks && u.key.library == l && InShare(tasks, assign, l, u.key, s)
  }

  /** The shares, over the tasks themselves: in a library of `n` tasks a split holds more than its share less five, and
      less than its share plus one, times the library's largest family. */
  lemma LibraryShares(tasks: seq<Task>, fam: Families, place: Placement, assign: Assignment, t: Task, s: Split)
    requires DistinctIds(tasks) && Grouped(tasks, fam) && Placed(tasks, place, assign) && place.Keys == fam.Keys
    requires t in tasks && Proportional(tasks, fam, place, t.key.library)
    ensures WithinShare(tasks, assign, t.key.library, s)
  {
    var l := t.key.library;
    GroupedHas(tasks, fam, t.key);
    assert t.key in Library(fam, l);
    var k := Biggest(fam, Library(fam, l));
    LibrarySize(tasks, fam, l);
    LibraryHeld(tasks, fam, place, assign, l, s);
    FamilySize(tasks, fam, k);
    GroupedHas(tasks, fam, k);
    var u :| u in tasks && u.key == k;
    assert u.key.library == l;
    assert FamiliesWithin(fam, l, |fam[k]|);
    assert InShare(tasks, assign, l, u.key, s);
  }

  lemma AllShares(tasks: seq<Task>, fam: Families, place: Placement, assign: Assignment)
    requires DistinctIds(tasks) && Grouped(tasks, fam) && Placed(tasks, place, assign) && place.Keys == fam.Keys
    requires forall t :: t in tasks ==> Proportional(tasks, fam, place, t.key.library)
    ensures forall t, s: Split :: t in tasks ==> WithinShare(tasks, assign, t.key.library, s)
  {
    forall t, s: Split | t in tasks { LibraryShares(tasks, fam, place, assign, t, s); }
  }

  /** Groups the tasks into families and places those of every library. */
  method PlaceFamilies(tasks: seq<Task>, orders: map<nat, seq<Key>>)
    returns (assign: Assignment, fam: Families, place: Placement)
    requires Orders(tasks, orders)
    ensures Grouped(tasks, fam) && Placed(tasks, place, assign) && place.Keys == fam.Keys
    ensures forall t :: t in tasks ==> t.key in place && Proportional(tasks, fam, place, t.key.library)
  {
    fam := GroupFamilies(tasks);
    assign, place := PlaceAll(tasks, fam, orders);
    forall t | t in tasks ensures t.key in place && Proportional(tasks, fam, place, t.key.library) {
      GroupedHas(tasks, fam, t.key);
    }
    assert place.Keys == fam.Keys by {
      forall k | k in fam ensures k.library in orders { GroupedHas(tasks, fam, k); }
    }
  }

  lemma InTheirSplits(tasks: seq<Task>, place: Placement, assign: Assignment)
    requires DistinctIds(tasks) && Placed(tasks, place, assign) && forall t :: t in tasks ==> t.key in place
    ensures forall t, s: Split :: t in tasks ==> (t.id in assign[s] <==> place[t.key] == s)
  {
    forall t, s: Split | t in tasks ensures t.id in assign[s] <==> place[t.key] == s {
      InItsSplit(tasks, place, assign, t, s);
    }
  }

  /** The partition and its audit: every task is in exactly one split, whole families together; in every
      library every split's count is within one family above and five below its share; and the audit finds
      no family that spans two splits. */
  method Build(tasks: seq<Task>, orders: map<nat, seq<Key>>)
    returns (assign: Assignment, span: nat, fam: Families, place: Placement)
    requires DistinctIds(tasks) && Orders(tasks, orders)
    ensures Grouped(tasks, fam) && Full(assign) && |Flat(assign)| == |tasks|
    ensures forall t :: t in tasks ==> t.key in place
    ensures forall t, s: Split :: t in tasks ==> (t.id in assign[s] <==> place[t.key] == s)
    ensures forall t :: t in tasks ==> Proportional(tasks, fam, place, t.key.library)
    ensures forall t, s: Split :: t in tasks ==> WithinShare(tasks, assign, t.key.library, s)
    ensures span == 0
  {
    assign, fam, place := PlaceFamilies(tasks, orders);
    span := CountSpans(fam, assign);
    NoneSpans(tasks, fam, place, assign);
    WholePlaced(tasks, place, assign);
    InTheirSplits(tasks, place, assign);
    AllShares(tasks, fam, place, assign);
  }
}
