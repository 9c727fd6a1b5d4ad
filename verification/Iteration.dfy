/** Iterating a function, whatever it is. */
module Iteration {

  function Iterate<T>(f: T -> T, x: T, n: nat): T { if n == 0 then x else f(Iterate(f, x, n - 1)) }

  ghost predicate Reaches<T(!new)>(f: T -> T, x: T, y: T) { exists n: nat :: Iterate(f, x, n) == y }

  lemma ReachesSelf<T(!new)>(f: T -> T, x: T)
    ensures Reaches(f, x, x)
  {
    assert Iterate(f, x, 0) == x;
  }

  lemma ReachesNext<T(!new)>(f: T -> T, x: T, y: T)
    requires Reaches(f, x, y)
    ensures Reaches(f, x, f(y))
  {
    var n: nat :| Iterate(f, x, n) == y;
    assert Iterate(f, x, n + 1) == f(y);
  }

  lemma {:induction false} IterateAdd<T>(f: T -> T, x: T, m: nat, n: nat)
    ensures Iterate(f, x, m + n) == Iterate(f, Iterate(f, x, m), n)
  {
    if n > 0 { IterateAdd(f, x, m, n - 1); }
  }

  lemma ReachesTrans<T(!new)>(f: T -> T, x: T, y: T, z: T)
    requires Reaches(f, x, y) && Reaches(f, y, z)
    ensures Reaches(f, x, z)
  {
    var m: nat :| Iterate(f, x, m) == y;
    var n: nat :| Iterate(f, y, n) == z;
    IterateAdd(f, x, m, n);
  }

  lemma {:induction false} FixedStays<T>(f: T -> T, x: T, n: nat)
    requires f(x) == x
    ensures Iterate(f, x, n) == x
  {
    if n > 0 { FixedStays(f, x, n - 1); }
  }

  /** Iteration comes to rest in one place. */
  lemma OneEnd<T(!new)>(f: T -> T, x: T, y: T, z: T)
    requires Reaches(f, x, y) && Reaches(f, x, z) && f(y) == y && f(z) == z
    ensures y == z
  {
    var m: nat :| Iterate(f, x, m) == y;
    var n: nat :| Iterate(f, x, n) == z;
    if m <= n {
      IterateAdd(f, x, m, n - m);
      FixedStays(f, y, n - m);
    } else {
      IterateAdd(f, x, n, m - n);
      FixedStays(f, z, m - n);
    }
  }
}
