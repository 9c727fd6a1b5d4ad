/** The hash chain of a tenant's audit events. Appending an event takes the tenant's transaction-scoped
    lock, reads the hash of the newest event, inserts the new event and commits. Transactions of all
    tenants interleave between these steps and may abort. An event's `created_at` is the time at which
    its transaction began, and the newest event is the one with the latest `created_at`. */
module AuditChain {
  import opened Records

  /** The digest of the previous hash (empty before the first event) and the payload. */
  const EventHash: (Option<nat>, nat) -> nat

  datatype Entry = Entry(org: nat, createdAt: nat, payload: nat, prev: Option<nat>, hash: nat)

  datatype Tx =
    | Begun(org: nat, startedAt: nat, payload: nat)
    | Locked(org: nat, startedAt: nat, payload: nat)
    | HasRead(org: nat, startedAt: nat, payload: nat, prev: Option<nat>)

  /** The committed events in commit order, the lock holder of each tenant, the open transactions. */
  datatype State = State(log: seq<Entry>, locks: map<nat, nat>, txs: map<nat, Tx>, clock: nat)

  datatype Action = Begin(t: nat, org: nat, payload: nat) | Acquire(t: nat) | Read(t: nat) | Commit(t: nat) | Abort(t: nat)

  const INITIAL := State([], map[], map[], 0)

  /** One tenant's events. */
  function Of(log: seq<Entry>, org: nat): (es: seq<Entry>) {
    if log == [] then []
    else Of(log[..|log| - 1], org) + (if log[|log| - 1].org == org then [log[|log| - 1]] else [])
  }

  /** The event a descending sort by `created_at` puts first. */
  function NewestOf(es: seq<Entry>): (k: nat)
    requires es != []
    ensures k < |es| && forall i :: 0 <= i < |es| ==> es[i].createdAt <= es[k].createdAt
  {
    if |es| == 1 then 0
    else var m := NewestOf(es[..|es| - 1]);
         if es[|es| - 1].createdAt >= es[m].createdAt then |es| - 1 else m
  }

  function Lookup(es: seq<Entry>): Option<nat> { if es == [] then None else Some(es[NewestOf(es)].hash) }

  function Release(s: State, t: nat): State
    requires t in s.txs
  {
    var org := s.txs[t].org;
    s.(txs := s.txs - {t}, locks := if org in s.locks && s.locks[org] == t then s.locks - {org} else s.locks)
  }

  function Next(s: State, a: Action): State {
    var t := a.t;
    if a.Begin? then
      if t in s.txs then s else s.(txs := s.txs[t := Begun(a.org, s.clock, a.payload)], clock := s.clock + 1)
    else if t !in s.txs then s
    else
      var x := s.txs[t];
      if a.Acquire? && x.Begun? && x.org !in s.locks then
        s.(txs := s.txs[t := Locked(x.org, x.startedAt, x.payload)], locks := s.locks[x.org := t])
      else if a.Read? && x.Locked? then
        s.(txs := s.txs[t := HasRead(x.org, x.startedAt, x.payload, Lookup(Of(s.log, x.org)))])
      else if a.Commit? && x.HasRead? then
        var e := Entry(x.org, x.startedAt, x.payload, x.prev, EventHash(x.prev, x.payload));
        Release(s.(log := s.log + [e]), t)
      else if a.Abort? then Release(s, t)
      else s
  }

  function Run(acts: seq<Action>): State {
    if acts == [] then INITIAL else Next(Run(acts[..|acts| - 1]), acts[|acts| - 1])
  }

  // ---------------------------------------------------------------- what the lock keeps

  /** A transaction past the lock holds it, and what it read is still the newest hash. */
  ghost predicate Exclusive(s: State) { forall u :: u in s.txs ==> Holds(s, u) }

  ghost predicate Holds(s: State, t: nat)
    requires t in s.txs
  {
    var x := s.txs[t];
    x.Begun? || (x.org in s.locks && s.locks[x.org] == t && (x.HasRead? ==> x.prev == Lookup(Of(s.log, x.org))))
  }

  /** Every event points at the event that was its tenant's newest when it was appended. */
  ghost predicate PointsAtNewest(es: seq<Entry>) {
    forall j :: 0 <= j < |es| ==> es[j].prev == Lookup(es[..j])
  }

  lemma OfSnoc(log: seq<Entry>, e: Entry, org: nat)
    ensures Of(log + [e], org) == if e.org == org then Of(log, org) + [e] else Of(log, org)
  {
    assert (log + [e])[..|log|] == log;
  }

  lemma SnocPointsAtNewest(es: seq<Entry>, e: Entry)
    requires PointsAtNewest(es) && e.prev == Lookup(es)
    ensures PointsAtNewest(es + [e])
  {
    var es' := es + [e];
    forall j | 0 <= j < |es'| ensures es'[j].prev == Lookup(es'[..j]) {
      if j < |es| { assert es'[..j] == es[..j]; } else { assert es'[..j] == es; }
    }
  }

  lemma NextKeepsLock(s: State, a: Action)
    requires Exclusive(s)
    ensures Exclusive(Next(s, a))
  {
    var s' := Next(s, a);
    forall u | u in s'.txs ensures Holds(s', u) {
      assert u in s.txs ==> Holds(s, u);
      if a.Commit? && a.t in s.txs && s.txs[a.t].HasRead? {
        assert Holds(s, a.t);
        OfSnoc(s.log, s'.log[|s.log|], s.txs[u].org);
      }
    }
  }

  lemma NextPointsAtNewest(s: State, a: Action, org: nat)
    requires Exclusive(s) && PointsAtNewest(Of(s.log, org))
    ensures PointsAtNewest(Of(Next(s, a).log, org))
  {
    var s' := Next(s, a);
    if a.Commit? && a.t in s.txs && s.txs[a.t].HasRead? {
      var e := s'.log[|s.log|];
      OfSnoc(s.log, e, org);
      if e.org == org { SnocPointsAtNewest(Of(s.log, org), e); }
    }
  }

  lemma {:induction false} RunKeeps(acts: seq<Action>, org: nat)
    ensures Exclusive(Run(acts)) && PointsAtNewest(Of(Run(acts).log, org))
  {
    if acts != [] {
      RunKeeps(acts[..|acts| - 1], org);
      NextKeepsLock(Run(acts[..|acts| - 1]), acts[|acts| - 1]);
      NextPointsAtNewest(Run(acts[..|acts| - 1]), acts[|acts| - 1], org);
    }
  }

  // ---------------------------------------------------------------- when the chain is unforked

  /** One unforked chain: the first event points nowhere, every other at its predecessor. */
  ghost predicate Unforked(es: seq<Entry>) {
    && (es != [] ==> es[0].prev == None)
    && (forall j :: 0 <= j < |es| - 1 ==> es[j + 1].prev == Some(es[j].hash))
  }

  /** Transactions commit in the order in which they began, the last one excepted. */
  ghost predicate StartsInOrder(es: seq<Entry>) {
    forall i, k :: 0 <= i < k < |es| - 1 ==> es[i].createdAt <= es[k].createdAt
  }

  ghost predicate NoCollision(es: seq<Entry>) {
    forall i, k :: 0 <= i < k < |es| ==> es[i].hash != es[k].hash
  }

  /** Event `last` began no earlier than any event before it. */
  ghost predicate NewestUpTo(es: seq<Entry>, last: nat)
    requires last < |es|
  {
    forall i :: 0 <= i < last ==> es[i].createdAt <= es[last].createdAt
  }

  lemma NewestIsLastIff(es: seq<Entry>)
    requires es != []
    ensures NewestOf(es) == |es| - 1 <==> NewestUpTo(es, |es| - 1)
  {
    if |es| > 1 {
      var m := NewestOf(es[..|es| - 1]);
      assert es[..|es| - 1][m] == es[m];
      assert forall i :: 0 <= i < |es| - 1 ==> es[i] == es[..|es| - 1][i];
    }
  }

  lemma LinkIsToLastIff(es: seq<Entry>, k: nat)
    requires PointsAtNewest(es) && NoCollision(es) && k + 1 < |es|
    ensures es[k + 1].prev == Some(es[k].hash) <==> NewestUpTo(es, k)
  {
    var before := es[..k + 1];
    NewestIsLastIff(before);
    assert before[NewestOf(before)] == es[NewestOf(before)] && before[k] == es[k];
    assert forall i :: 0 <= i < k ==> es[i] == before[i];
    if NewestOf(before) != k { assert es[NewestOf(before)].hash != es[k].hash; }
  }

  /** If the tenant's transactions commit in the order in which they began, every event points at the
      tenant's preceding event, whatever the digest does. */
  lemma InOrderUnforked(acts: seq<Action>, org: nat)
    requires StartsInOrder(Of(Run(acts).log, org))
    ensures Unforked(Of(Run(acts).log, org))
  {
    RunKeeps(acts, org);
    var es := Of(Run(acts).log, org);
    if es != [] { assert es[0].prev == Lookup(es[..0]); }
    forall j | 0 <= j < |es| - 1 ensures es[j + 1].prev == Some(es[j].hash) {
      var before := es[..j + 1];
      NewestIsLastIff(before);
      assert before[NewestOf(before)] == es[NewestOf(before)];
    }
  }

  // ---------------------------------------------------------------- the digest

  /** No two pairs of previous hash and payload have the same digest. */
  ghost predicate InjectiveHash() {
    forall p, q, x, y :: EventHash(p, x) == EventHash(q, y) ==> p == q && x == y
  }

  /** Every event holds the digest of its previous hash and its payload. */
  ghost predicate Hashed(es: seq<Entry>) { forall j :: 0 <= j < |es| ==> es[j].hash == EventHash(es[j].prev, es[j].payload) }

  lemma SnocHashed(es: seq<Entry>, e: Entry)
    requires Hashed(es) && e.hash == EventHash(e.prev, e.payload)
    ensures Hashed(es + [e])
  {
  }

  /** A step leaves the log or appends one hashed event. */
  lemma NextAppends(s: State, a: Action)
    ensures var log := Next(s, a).log;
            log == s.log
            || (|log| == |s.log| + 1 && log == s.log + [log[|s.log|]]
                && log[|s.log|].hash == EventHash(log[|s.log|].prev, log[|s.log|].payload))
  {
  }

  lemma NextHashed(s: State, a: Action, org: nat)
    requires Hashed(Of(s.log, org))
    ensures Hashed(Of(Next(s, a).log, org))
  {
    var log := Next(s, a).log;
    NextAppends(s, a);
    if log != s.log {
      var e := log[|s.log|];
      OfSnoc(s.log, e, org);
      if e.org == org { SnocHashed(Of(s.log, org), e); }
    }
  }

  lemma {:induction false} RunHashed(acts: seq<Action>, org: nat)
    ensures Hashed(Of(Run(acts).log, org))
  {
    if acts != [] {
      RunHashed(acts[..|acts| - 1], org);
      NextHashed(Run(acts[..|acts| - 1]), acts[|acts| - 1], org);
    }
  }

  /** In one unforked chain no two events have the same hash: their predecessors would have one too, back to
      the first event, which has none. */
  lemma {:induction false} UnforkedDistinct(es: seq<Entry>, i: nat, k: nat)
    requires InjectiveHash() && Hashed(es) && Unforked(es) && i < k < |es|
    ensures es[i].hash != es[k].hash
  {
    var m := k - 1;
    assert es[m + 1].prev == Some(es[m].hash);
    if i > 0 {
      var h := i - 1;
      UnforkedDistinct(es, h, m);
      assert es[h + 1].prev == Some(es[h].hash);
    }
    assert es[i].prev != es[k].prev;
  }

  /** The chain of a tenant, over every interleaving of the transactions of all tenants: it is one
      unforked chain exactly when that tenant's transactions commit in the order in which they began
      (the newest commit excepted). The lock makes this the whole condition; the sort by `created_at`
      makes it a condition at all. */
  lemma ChainUnforkedIff(acts: seq<Action>, org: nat)
    requires InjectiveHash()
    ensures Unforked(Of(Run(acts).log, org)) <==> StartsInOrder(Of(Run(acts).log, org))
  {
    RunKeeps(acts, org);
    RunHashed(acts, org);
    var es := Of(Run(acts).log, org);
    if Unforked(es) {
      forall i, k | 0 <= i < k < |es| ensures es[i].hash != es[k].hash { UnforkedDistinct(es, i, k); }
      forall i, k | 0 <= i < k < |es| - 1 ensures es[i].createdAt <= es[k].createdAt { LinkIsToLastIff(es, k); }
    }
    if StartsInOrder(es) { InOrderUnforked(acts, org); }
  }

  /** One more action of a run, with the state it leads to. */
  lemma Take(s: State, acts: seq<Action>, a: Action) returns (s': State, acts': seq<Action>)
    requires s == Run(acts)
    ensures s' == Next(s, a) && s' == Run(acts')
  {
    s', acts' := Next(s, a), acts + [a];
    assert acts'[..|acts'| - 1] == acts;
  }

  /** Transaction 1 begins first; transaction 2 gets the lock first and commits. */
  lemma SecondStarterCommits(org: nat) returns (s: State, acts: seq<Action>, e: Entry)
    ensures s == Run(acts) && s == State([e], map[], map[1 := Begun(org, 0, 1)], 2)
    ensures e == Entry(org, 1, 2, None, EventHash(None, 2))
  {
    s, acts := INITIAL, [];
    s, acts := Take(s, acts, Begin(1, org, 1));
    s, acts := Take(s, acts, Begin(2, org, 2));
    assert s == State([], map[], map[1 := Begun(org, 0, 1), 2 := Begun(org, 1, 2)], 2);
    s, acts := Take(s, acts, Acquire(2));
    assert s == State([], map[org := 2], map[1 := Begun(org, 0, 1), 2 := Locked(org, 1, 2)], 2);
    s, acts := Take(s, acts, Read(2));
    assert s == State([], map[org := 2], map[1 := Begun(org, 0, 1), 2 := HasRead(org, 1, 2, None)], 2);
    s, acts := Take(s, acts, Commit(2));
    e := Entry(org, 1, 2, None, EventHash(None, 2));
    assert s.locks == map[] && s.txs == map[1 := Begun(org, 0, 1)];
  }

  /** A transaction takes the lock, reads, and commits an event that points at the newest one. */
  lemma Appends(s0: State, acts0: seq<Action>, t: nat) returns (s: State, acts: seq<Action>, e: Entry)
    requires s0 == Run(acts0) && s0.locks == map[] && t in s0.txs && s0.txs[t].Begun?
    ensures s == Run(acts) && s == State(s0.log + [e], map[], s0.txs - {t}, s0.clock)
    ensures e.org == s0.txs[t].org && e.createdAt == s0.txs[t].startedAt && e.prev == Lookup(Of(s0.log, e.org))
  {
    var x := s0.txs[t];
    s, acts := Take(s0, acts0, Acquire(t));
    assert s == State(s0.log, map[x.org := t], s0.txs[t := Locked(x.org, x.startedAt, x.payload)], s0.clock);
    s, acts := Take(s, acts, Read(t));
    assert s.txs[t] == HasRead(x.org, x.startedAt, x.payload, Lookup(Of(s0.log, x.org)));
    s, acts := Take(s, acts, Commit(t));
    e := s.log[|s0.log|];
    assert s.locks == map[] && s.txs == s0.txs - {t};
  }

  /** The lock alone does not do it: when a transaction that began earlier gets the lock later, the next
      two events of the tenant both point at the same predecessor. */
  lemma LateStarterForks(org: nat)
    ensures exists acts :: var es := Of(Run(acts).log, org); |es| == 3 && es[1].prev == es[2].prev == Some(es[0].hash)
  {
    var s, acts, e0 := SecondStarterCommits(org);
    var e1, e2;
    OfSnoc([], e0, org);
    assert [] + [e0] == [e0];
    s, acts, e1 := Appends(s, acts, 1);
    s, acts := Take(s, acts, Begin(3, org, 3));
    assert s.log == [e0, e1];
    OfSnoc([e0], e1, org);
    assert [e0] + [e1] == [e0, e1] && [e0, e1][..1] == [e0];
    assert NewestOf([e0, e1]) == 0;
    s, acts, e2 := Appends(s, acts, 3);
    OfSnoc([e0, e1], e2, org);
  }
}
