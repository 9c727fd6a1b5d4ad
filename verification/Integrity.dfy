/** What every run of the protocol keeps. Part one holds of all runs, whatever overlaps: content
    addressing, and legal hold and retention. Part two is the availability of served bytes, which needs
    physical deletion not to overlap an upload or a repair of the same artifact. */
module Integrity {
  import opened Records
  import opened Protocol

  // ---------------------------------------------------------------- part one: all runs

  /** Objects match the digest in their key and have a row; rows match their key; a row on its way to
      deletion is protected by neither hold nor retention. */
  ghost predicate CoreOk(c: Core) {
    && (forall k :: k in c.objects ==> Sha256(c.objects[k]) == k.hash && Ref(k.org, k) in c.rows)
    && (forall r :: r in c.rows ==> RowOk(c, r))
  }

  ghost predicate RowOk(c: Core, r: Ref)
    requires r in c.rows
  {
    r.org == r.key.org && c.rows[r].hash == r.key.hash
    && (Deleting(c.rows[r].state) ==> Erasable(c.rows[r], c.clock))
  }

  ghost predicate MayErase(c: Core, ref: Ref) { ref in c.rows && Erasable(c.rows[ref], c.clock) }

  ghost predicate AllErasable(c: Core, work: seq<Item>) { forall it <- work :: MayErase(c, it.ref) }

  ghost predicate AllKnown(c: Core, work: seq<Item>) { forall it <- work :: it.ref in c.rows }

  /** What an operation in flight relies on, whatever else is going on. */
  ghost predicate ProcOk(c: Core, p: Proc) {
    && (p.Putting? ==> Sha256(p.data) == p.ref.key.hash && p.ref.org == p.ref.key.org
                       && (p.at.Lookup? || p.at.InsertRow? || p.ref in c.rows))
    && (p.Purging? ==> AllErasable(c, p.work))
    && (p.Repairing? ==> AllKnown(c, p.work))
    && (p.GetRead? ==> p.ref in c.rows && p.hash == p.ref.key.hash)
  }

  /** What every step promises the others about its effect. */
  ghost predicate EffectOk(c: Core, e: Effect) {
    match e
    case NoEffect => true
    case Insert(ref, _, _) => ref.org == ref.key.org
    case Mark(ref, _, next, _) => ref in c.rows && !next.PendingUpload? && (Deleting(next) ==> MayErase(c, ref))
    case Request(ref) => MayErase(c, ref)
    case Write(key, data) => Sha256(data) == key.hash && Ref(key.org, key) in c.rows
    case Remove(key) => Ref(key.org, key) in c.rows ==> MayErase(c, Ref(key.org, key))
  }

  ghost predicate StateOk(s: State) { CoreOk(s.core) && forall i :: i in s.procs ==> ProcOk(s.core, s.procs[i]) }

  lemma EffectKeepsCore(c: Core, e: Effect)
    requires CoreOk(c) && EffectOk(c, e)
    ensures CoreOk(Apply(c, e))
  {
    var c' := Apply(c, e);
    forall r | r in c'.rows ensures RowOk(c', r) {
      if r in c.rows { assert RowOk(c, r); }
    }
  }

  lemma EffectKeepsProc(c: Core, e: Effect, p: Proc)
    requires CoreOk(c) && EffectOk(c, e) && ProcOk(c, p)
    ensures ProcOk(Apply(c, e), p)
  {
    forall r | MayErase(c, r) ensures MayErase(Apply(c, e), r) {}
  }

  lemma PurgeWorkErasable(c: Core, org: nat, scan: seq<Ref>)
    ensures forall it <- PurgeWork(c, org, scan) :: Purgeable(c, org, it.ref) && it.seen == c.rows[it.ref].state
    ensures forall r <- scan :: Purgeable(c, org, r) ==> Item(r, c.rows[r].state) in PurgeWork(c, org, scan)
  {
    if scan != [] { PurgeWorkErasable(c, org, scan[1..]); }
  }

  lemma RepairWorkRepairable(c: Core, org: nat, scan: seq<Ref>)
    ensures forall it <- RepairWork(c, org, scan) :: Repairable(c, org, it.ref) && it.seen == c.rows[it.ref].state
    ensures forall r <- scan :: Repairable(c, org, r) ==> Item(r, c.rows[r].state) in RepairWork(c, org, scan)
  {
    if scan != [] { RepairWorkRepairable(c, org, scan[1..]); }
  }

  lemma PutPlanOk(c: Core, p: Proc, ch: Choice)
    requires CoreOk(c) && ProcOk(c, p) && p.Putting?
    ensures EffectOk(c, PlanPut(c, p, ch).0)
    ensures ProcOk(Apply(c, PlanPut(c, p, ch).0), PlanPut(c, p, ch).1)
  {
    assert p.ref == Ref(p.ref.key.org, p.ref.key);
    if p.at.Lookup? || p.at.InsertRow? {
    } else {
      assert ProcOk(c, PlanPut(c, p, ch).1);
      EffectKeepsProc(c, PlanPut(c, p, ch).0, PlanPut(c, p, ch).1);
    }
  }

  lemma WorkTail(c: Core, work: seq<Item>)
    requires work != []
    ensures AllErasable(c, work) ==> AllErasable(c, work[1..]) && MayErase(c, work[0].ref)
    ensures AllKnown(c, work) ==> AllKnown(c, work[1..]) && work[0].ref in c.rows
  {
    assert work[0] in work;
    assert forall it <- work[1..] :: it in work;
  }

  lemma PurgePlanOk(c: Core, p: Proc, ch: Choice)
    requires CoreOk(c) && ProcOk(c, p) && p.Purging?
    ensures EffectOk(c, PlanPurge(c, p, ch).0) && ProcOk(c, PlanPurge(c, p, ch).1)
  {
    if p.work != [] {
      WorkTail(c, p.work);
      var ref := p.work[0].ref;
      assert RowOk(c, ref);
      assert ref == Ref(ref.key.org, ref.key);
    }
  }

  lemma RepairPlanOk(c: Core, p: Proc, ch: Choice)
    requires CoreOk(c) && ProcOk(c, p) && p.Repairing?
    ensures EffectOk(c, PlanRepair(c, p, ch).0) && ProcOk(c, PlanRepair(c, p, ch).1)
  {
    if p.work != [] { WorkTail(c, p.work); }
  }

  lemma PlanOk(c: Core, p: Proc, ch: Choice)
    requires CoreOk(c) && ProcOk(c, p)
    ensures var (e, p') := Plan(c, p, ch); EffectOk(c, e) && ProcOk(Apply(c, e), p')
  {
    if p.Putting? { PutPlanOk(c, p, ch); }
    else {
      if p.Purging? { PurgePlanOk(c, p, ch); }
      else if p.Repairing? { RepairPlanOk(c, p, ch); }
      else if p.PurgeSelect? { PurgeWorkErasable(c, p.org, p.scan); }
      else if p.RepairSelect? { RepairWorkRepairable(c, p.org, p.scan); }
      else if p.GetLookup? && p.ref in c.rows { assert RowOk(c, p.ref); }
      EffectKeepsProc(c, Plan(c, p, ch).0, Plan(c, p, ch).1);
    }
  }

  lemma NextOk(s: State, a: Action)
    requires StateOk(s)
    ensures StateOk(Next(s, a))
  {
    match a
    case Spawn(pid, op) =>
    case Crash(pid) =>
    case Tick(time) =>
      var s' := Next(s, a);
      forall r | r in s'.core.rows ensures RowOk(s'.core, r) { assert RowOk(s.core, r); }
      forall i | i in s'.procs ensures ProcOk(s'.core, s'.procs[i]) {
        forall r | MayErase(s.core, r) ensures MayErase(s'.core, r) {}
      }
    case Step(pid, choice) =>
      if pid in s.procs {
        var (e, p) := Plan(s.core, s.procs[pid], choice);
        PlanOk(s.core, s.procs[pid], choice);
        EffectKeepsCore(s.core, e);
        var s' := Next(s, a);
        forall i | i in s'.procs ensures ProcOk(s'.core, s'.procs[i]) {
          if i != pid { EffectKeepsProc(s.core, e, s.procs[i]); }
        }
      }
  }

  lemma {:induction false} RunOk(s: State, acts: seq<Action>)
    requires StateOk(s)
    ensures StateOk(Run(s, acts))
  {
    if acts != [] {
      RunOk(s, acts[..|acts| - 1]);
      NextOk(Run(s, acts[..|acts| - 1]), acts[|acts| - 1]);
    }
  }

  // ---------------------------------------------------------------- hold, retention, reads

  /** Hold or retention protects the row at time `now`. */
  ghost predicate Protected(c: Core, ref: Ref, now: nat) { ref in c.rows && !Erasable(c.rows[ref], now) }

  lemma EffectKeepsProtected(c: Core, e: Effect, ref: Ref)
    requires CoreOk(c) && EffectOk(c, e) && Protected(c, ref, c.clock)
    ensures Protected(Apply(c, e), ref, c.clock) && Apply(c, e).rows[ref].legalHold == c.rows[ref].legalHold
    ensures Apply(c, e).rows[ref].retainUntil == c.rows[ref].retainUntil
    ensures ref.key in c.objects ==> ref.key in Apply(c, e).objects && Apply(c, e).objects[ref.key] == c.objects[ref.key]
  {
    assert RowOk(c, ref) && ref == Ref(ref.key.org, ref.key);
  }

  lemma NextKeepsProtected(s: State, a: Action, ref: Ref)
    requires StateOk(s) && Protected(s.core, ref, Next(s, a).core.clock)
    ensures s.core.clock <= Next(s, a).core.clock
    ensures Protected(Next(s, a).core, ref, Next(s, a).core.clock)
    ensures Next(s, a).core.rows[ref].legalHold == s.core.rows[ref].legalHold
    ensures Next(s, a).core.rows[ref].retainUntil == s.core.rows[ref].retainUntil
    ensures ref.key in s.core.objects ==>
              ref.key in Next(s, a).core.objects && Next(s, a).core.objects[ref.key] == s.core.objects[ref.key]
  {
    if a.Step? && a.pid in s.procs {
      PlanOk(s.core, s.procs[a.pid], a.choice);
      EffectKeepsProtected(s.core, Plan(s.core, s.procs[a.pid], a.choice).0, ref);
    }
  }

  /** Legal hold and retention, over every run and every interleaving: a row under legal hold, or one
      whose retention ends after the run does, is not in a deletion state when the run ends, and its
      object, once there, is still there with the same bytes. */
  lemma {:induction false} ProtectedNeverErased(s: State, acts: seq<Action>, ref: Ref)
    requires StateOk(s) && ref in s.core.rows
    requires var row, end := s.core.rows[ref], Run(s, acts).core.clock;
             row.legalHold || (row.retainUntil.Some? && row.retainUntil.value > end)
    ensures var c := Run(s, acts).core;
            && ref in c.rows
            && c.rows[ref].legalHold == s.core.rows[ref].legalHold
            && c.rows[ref].retainUntil == s.core.rows[ref].retainUntil
            && !(c.rows[ref].state in {DeleteRequested, LogicallyDeleted, PhysicalDeletePending, PhysicallyConfirmed})
            && (ref.key in s.core.objects ==>
                  ref.key in c.objects && c.objects[ref.key] == s.core.objects[ref.key])
  {
    RunOk(s, acts);
    if acts == [] {
      assert RowOk(s.core, ref);
    } else {
      var before, last := acts[..|acts| - 1], acts[|acts| - 1];
      var mid := Run(s, before);
      RunOk(s, before);
      assert mid.core.clock <= Next(mid, last).core.clock;
      ProtectedNeverErased(s, before, ref);
      NextKeepsProtected(mid, last, ref);
      assert RowOk(Run(s, acts).core, ref);
    }
  }

  /** A read never returns bytes that differ from what was stored, and never reports corruption, in
      any run, even when a deletion overtakes it. */
  lemma ReadNeverCorrupt(acts: seq<Action>, pid: nat, ch: Choice)
    requires var s := Run(INITIAL, acts); pid in s.procs && s.procs[pid].GetRead?
    ensures var p := Run(INITIAL, acts).procs[pid];
            var p' := Next(Run(INITIAL, acts), Step(pid, ch)).procs[pid];
            p' == Done(StoreError) || (p'.Done? && p'.outcome.Content? && Sha256(p'.outcome.data) == p.ref.key.hash)
  {
    RunOk(INITIAL, acts);
  }

  // ---------------------------------------------------------------- part two: without overlap

  /** The operation may make artifact `r` available again: an upload or a repair of it. */
  ghost predicate Touches(p: Proc, r: Ref) {
    (p.Putting? && p.ref == r) || (p.Repairing? && exists it <- p.work :: it.ref == r)
  }

  /** The operation has selected artifact `r` for physical deletion. */
  ghost predicate Erases(p: Proc, r: Ref) { p.Purging? && exists it <- p.work :: it.ref == r }

  /** No physical deletion overlaps an upload or a repair of the same artifact. */
  ghost predicate NoOverlap(s: State) {
    forall i, j, r :: i in s.procs && j in s.procs && Erases(s.procs[i], r) ==> !Touches(s.procs[j], r)
  }

  ghost predicate NeverOverlaps(s: State, acts: seq<Action>) {
    NoOverlap(Run(s, acts)) && (acts == [] || NeverOverlaps(s, acts[..|acts| - 1]))
  }

  lemma {:induction false} AlongTheRun(s: State, acts: seq<Action>)
    ensures NeverOverlaps(s, acts) <==> forall n :: 0 <= n <= |acts| ==> NoOverlap(Run(s, acts[..n]))
  {
    assert acts[..|acts|] == acts;
    if acts != [] {
      var before := acts[..|acts| - 1];
      AlongTheRun(s, before);
      assert forall n :: 0 <= n < |acts| ==> acts[..n] == before[..n];
    }
  }

  /** A run never overlaps exactly when in no state along it a physical deletion has an artifact in its work that an
      upload is storing or a repair has in its work. */
  lemma NeverOverlapsIff(s: State, acts: seq<Action>)
    ensures NeverOverlaps(s, acts) <==>
              forall n :: 0 <= n <= |acts| ==>
                var ps := Run(s, acts[..n]).procs;
                forall i, j, x :: i in ps && j in ps && ps[i].Purging? && x in ps[i].work ==>
                  !(ps[j].Putting? && ps[j].ref == x.ref)
                  && !(ps[j].Repairing? && exists y :: y in ps[j].work && y.ref == x.ref)
  {
    AlongTheRun(s, acts);
    forall n | 0 <= n <= |acts| { NoOverlapIff(Run(s, acts[..n])); }
  }

  lemma NoOverlapIff(s: State)
    ensures NoOverlap(s) <==>
              var ps := s.procs;
              forall i, j, x :: i in ps && j in ps && ps[i].Purging? && x in ps[i].work ==>
                !(ps[j].Putting? && ps[j].ref == x.ref)
                && !(ps[j].Repairing? && exists y :: y in ps[j].work && y.ref == x.ref)
  {
    if NoOverlap(s) {
      forall i, j, x | i in s.procs && j in s.procs && s.procs[i].Purging? && x in s.procs[i].work
        ensures !Touches(s.procs[j], x.ref)
      {
        assert Erases(s.procs[i], x.ref);
      }
    }
  }

  /** Every served row has its object. */
  ghost predicate Served(c: Core) {
    forall r :: r in c.rows && c.rows[r].state.Available? ==> r.key in c.objects
  }

  ghost predicate NoneAvailable(c: Core, work: seq<Item>) {
    forall it <- work :: it.ref in c.rows && !c.rows[it.ref].state.Available?
  }

  ghost predicate ProcSafe(c: Core, p: Proc) {
    && (p.Putting? && (p.at.Head? || p.at.Verify? || p.at.Commit?) ==> p.ref.key in c.objects)
    && (p.Repairing? && p.stage.Recover? && p.work != [] ==> p.work[0].ref.key in c.objects)
    && (p.Purging? ==> NoneAvailable(c, p.work))
    && (p.Purging? && p.step.Confirm? && p.work != [] ==> p.work[0].ref.key !in c.objects)
  }

  ghost predicate EffectSafe(c: Core, e: Effect) {
    && (e.Mark? && e.next.Available? ==> e.ref.key in c.objects)
    && (e.Mark? && e.next.PhysicallyConfirmed? ==> e.ref.key !in c.objects)
    && (e.Remove? ==> Ref(e.key.org, e.key) in c.rows ==> !c.rows[Ref(e.key.org, e.key)].state.Available?)
  }

  /** Exactly which steps keep every served row backed by its object. */
  lemma StepKeepsServedIff(c: Core, e: Effect)
    requires CoreOk(c) && Served(c) && EffectOk(c, e)
    ensures Served(Apply(c, e)) <==>
            && (e.Mark? && e.next.Available? ==> e.ref.key in c.objects)
            && (e.Remove? && Ref(e.key.org, e.key) in c.rows ==> !c.rows[Ref(e.key.org, e.key)].state.Available?)
  {
    var c' := Apply(c, e);
    match e
    case Remove(key) =>
      forall r | r in c.rows && r.key == key ensures r == Ref(key.org, key) { assert RowOk(c, r); }
    case Mark(ref, _, next, _) => assert ref in c'.rows && c'.rows[ref].state == next;
    case _ =>
  }

  lemma NoneAvailableTail(c: Core, work: seq<Item>)
    requires work != [] && NoneAvailable(c, work)
    ensures NoneAvailable(c, work[1..]) && work[0].ref in c.rows && !c.rows[work[0].ref].state.Available?
  {
    assert work[0] in work;
    assert forall it <- work[1..] :: it in work;
  }

  lemma EffectKeepsSafe(c: Core, e: Effect, q: Proc)
    requires CoreOk(c) && EffectOk(c, e) && ProcOk(c, q) && ProcSafe(c, q)
    requires e.Remove? ==> !Touches(q, Ref(e.key.org, e.key))
    requires e.Mark? && e.next.Available? ==> !Erases(q, e.ref)
    requires e.Write? ==> !Erases(q, Ref(e.key.org, e.key))
    ensures ProcSafe(Apply(c, e), q)
  {
    var c' := Apply(c, e);
    if q.Purging? {
      forall it | it in q.work ensures it.ref in c'.rows && !c'.rows[it.ref].state.Available? {}
      if q.work != [] { assert q.work[0] in q.work && RowOk(c, q.work[0].ref); }
    } else if q.Repairing? && q.work != [] {
      assert q.work[0] in q.work && RowOk(c, q.work[0].ref);
    }
  }

  lemma PlanPutSafe(c: Core, p: Proc, ch: Choice)
    requires CoreOk(c) && ProcOk(c, p) && ProcSafe(c, p) && p.Putting?
    ensures EffectSafe(c, PlanPut(c, p, ch).0) && ProcSafe(Apply(c, PlanPut(c, p, ch).0), PlanPut(c, p, ch).1)
  {
    PutKeepsObject(c, p, ch);
    var (e, p') := PlanPut(c, p, ch);
    assert p'.Putting? || p'.Done?;
    assert !e.Remove? && (e.Mark? && e.next.Available? ==> p.at.Commit? && e.ref == p.ref);
    assert e.Mark? ==> !e.next.PhysicallyConfirmed?;
  }

  /** An upload that has written its object finds it there at every later step. */
  lemma PutKeepsObject(c: Core, p: Proc, ch: Choice)
    requires p.Putting? && ProcSafe(c, p)
    ensures var (e, p') := PlanPut(c, p, ch);
            p'.Putting? && (p'.at.Head? || p'.at.Verify? || p'.at.Commit?) ==> p'.ref.key in Apply(c, e).objects
  {
  }

  lemma PlanPurgeSafe(c: Core, p: Proc, ch: Choice)
    requires CoreOk(c) && ProcOk(c, p) && ProcSafe(c, p) && p.Purging?
    ensures EffectSafe(c, PlanPurge(c, p, ch).0) && ProcSafe(Apply(c, PlanPurge(c, p, ch).0), PlanPurge(c, p, ch).1)
  {
    if p.work != [] {
      NoneAvailableTail(c, p.work);
      assert RowOk(c, p.work[0].ref);
      assert p.work[0].ref == Ref(p.work[0].ref.key.org, p.work[0].ref.key);
      var (e, p') := PlanPurge(c, p, ch);
      var c' := Apply(c, e);
      assert NoneAvailable(c, p'.work);
      forall it | it in p'.work ensures it.ref in c'.rows && !c'.rows[it.ref].state.Available? {}
    }
  }

  lemma PlanSafe(c: Core, p: Proc, ch: Choice)
    requires CoreOk(c) && ProcOk(c, p) && ProcSafe(c, p)
    ensures var (e, p') := Plan(c, p, ch); EffectSafe(c, e) && ProcSafe(Apply(c, e), p')
  {
    match p
    case Putting(_, _, _, _, _) => PlanPutSafe(c, p, ch);
    case Purging(_, _, _) => PlanPurgeSafe(c, p, ch);
    case PurgeSelect(org, scan) => PurgeWorkErasable(c, org, scan);
    case _ =>
  }

  /** What a step writes is in the footprint of its operation. */
  lemma PlanFootprint(c: Core, p: Proc, ch: Choice)
    requires CoreOk(c) && ProcOk(c, p)
    ensures var e := Plan(c, p, ch).0;
            && (e.Remove? ==> Erases(p, Ref(e.key.org, e.key)))
            && (e.Mark? && e.next.Available? ==> Touches(p, e.ref))
            && (e.Write? ==> Touches(p, Ref(e.key.org, e.key)))
  {
    if p.Putting? { assert p.ref == Ref(p.ref.key.org, p.ref.key); }
    if p.Purging? && p.work != [] {
      assert p.work[0] in p.work && RowOk(c, p.work[0].ref);
      assert p.work[0].ref == Ref(p.work[0].ref.key.org, p.work[0].ref.key);
    }
    if p.Repairing? && p.work != [] { assert p.work[0] in p.work; }
  }

  ghost predicate StateSafe(s: State) {
    StateOk(s) && Served(s.core) && forall i :: i in s.procs ==> ProcSafe(s.core, s.procs[i])
  }

  lemma NextSafe(s: State, a: Action)
    requires StateSafe(s) && NoOverlap(s)
    ensures StateSafe(Next(s, a))
  {
    NextOk(s, a);
    if a.Step? && a.pid in s.procs {
      var (e, p) := Plan(s.core, s.procs[a.pid], a.choice);
      PlanOk(s.core, s.procs[a.pid], a.choice);
      PlanSafe(s.core, s.procs[a.pid], a.choice);
      PlanFootprint(s.core, s.procs[a.pid], a.choice);
      StepKeepsServedIff(s.core, e);
      var s' := Next(s, a);
      forall i | i in s'.procs ensures ProcSafe(s'.core, s'.procs[i]) {
        if i != a.pid { EffectKeepsSafe(s.core, e, s.procs[i]); }
      }
    }
  }

  lemma {:induction false} RunSafe(s: State, acts: seq<Action>)
    requires StateSafe(s) && NeverOverlaps(s, acts)
    ensures StateSafe(Run(s, acts))
  {
    if acts != [] {
      RunSafe(s, acts[..|acts| - 1]);
      NextSafe(Run(s, acts[..|acts| - 1]), acts[|acts| - 1]);
    }
  }

  /** Integrity over whole runs: uploads, reads, deletion requests, physical deletions and repairs,
      interleaved step by step, with crashes and store failures anywhere. If no physical deletion
      overlaps an upload or a repair of the same artifact, every AVAILABLE row's key holds bytes whose
      digest is the row's content hash. */
  lemma AvailableRowsIntact(acts: seq<Action>)
    requires NeverOverlaps(INITIAL, acts)
    ensures var c := Run(INITIAL, acts).core;
            forall r :: r in c.rows && c.rows[r].state.Available? ==>
              r.key in c.objects && Sha256(c.objects[r.key]) == c.rows[r].hash
  {
    RunSafe(INITIAL, acts);
    var c := Run(INITIAL, acts).core;
    forall r | r in c.rows && c.rows[r].state.Available?
      ensures r.key in c.objects && Sha256(c.objects[r.key]) == c.rows[r].hash
    {
      assert RowOk(c, r);
    }
  }
}
