/** What becomes of an artifact whose physical deletion was cut short by a crash: the next run of the deletion
    worker finishes it, unless the crash left its row PHYSICAL_DELETE_PENDING. No worker takes such a row up again,
    and no list of reconciliation names it. */
module Resumption {
  import opened Records
  import opened Protocol
  import opened Integrity
  import opened Reconciliation
  import opened Iteration
  import opened Solo

  /** A completed run of the deletion worker over a tenant's rows, from any state whatever: every row whose deletion
      was requested or begun, and that neither hold nor retention protects, is PHYSICALLY_CONFIRMED without its
      object; the other rows are as they were. */
  lemma CompletedRun(c: Core, org: nat, scan: seq<Ref>, c': Core, results: seq<(Ref, LifeState)>)
    requires Covers(c, org, scan)
    requires RunsTo(Config(c, Start(OpPurge(org, scan))), Config(c', Done(Purged(results))))
    ensures c'.rows.Keys == c.rows.Keys && c'.clock == c.clock
    ensures forall r <- c.rows ::
              if r.org == org && (c.rows[r].state.DeleteRequested? || c.rows[r].state.LogicallyDeleted?)
                 && !c.rows[r].legalHold && (c.rows[r].retainUntil.None? || c.rows[r].retainUntil.value <= c.clock)
              then c'.rows[r] == c.rows[r].(state := PhysicallyConfirmed) && r.key !in c'.objects
                   && (r, PhysicallyConfirmed) in results
              else c'.rows[r] == c.rows[r]
  {
    var work := PurgeWork(c, org, scan);
    PurgeRunRefines(c, org, scan);
    OneEnd(Move, Config(c, PurgeSelect(org, scan)), Config(PurgeAll(c, work), Done(Purged(Confirmations(work)))),
           Config(c', Done(Purged(results))));
    PurgeScanOutcome(c, org, scan);
    PurgeScanResults(c, org, scan);
    PurgeAllOutcome(c, work);
  }

  /** After any run, with crashes and failures anywhere, one completed run of the deletion worker leaves no row of
      the tenant DELETE_REQUESTED or LOGICALLY_DELETED; and of the rows in a deletion state it leaves
      PHYSICALLY_CONFIRMED exactly those that were not PHYSICAL_DELETE_PENDING. */
  lemma LaterRunFinishes(acts: seq<Action>, org: nat, scan: seq<Ref>, c': Core, results: seq<(Ref, LifeState)>)
    requires Covers(Run(INITIAL, acts).core, org, scan)
    requires RunsTo(Config(Run(INITIAL, acts).core, Start(OpPurge(org, scan))), Config(c', Done(Purged(results))))
    ensures forall r <- c'.rows :: r.org == org ==> !c'.rows[r].state.DeleteRequested? && !c'.rows[r].state.LogicallyDeleted?
    ensures var c := Run(INITIAL, acts).core;
            forall r <- c.rows :: r.org == org && Deleting(c.rows[r].state) ==>
              r in c'.rows && (c'.rows[r].state.PhysicallyConfirmed? <==> !c.rows[r].state.PhysicalDeletePending?)
  {
    var c := Run(INITIAL, acts).core;
    RunOk(INITIAL, acts);
    CompletedRun(c, org, scan, c', results);
    forall r | r in c.rows ensures RowOk(c, r) {}
  }

  // ---------------------------------------------------------------- what is never resumed

  /** The row is PHYSICAL_DELETE_PENDING and no operation in flight works on it. */
  ghost predicate Stranded(s: State, r: Ref) {
    r in s.core.rows && s.core.rows[r].state.PhysicalDeletePending?
    && forall i :: i in s.procs ==> !Touches(s.procs[i], r) && !Erases(s.procs[i], r)
  }

  lemma WorkAfterStep(c: Core, p: Proc, ch: Choice, r: Ref)
    requires r in c.rows && c.rows[r].state.PhysicalDeletePending? && !Touches(p, r) && !Erases(p, r)
    ensures var p' := Plan(c, p, ch).1; !Touches(p', r) && !Erases(p', r)
  {
    match p
    case PurgeSelect(org, scan) => PurgeWorkErasable(c, org, scan);
    case RepairSelect(org, scan) => RepairWorkRepairable(c, org, scan);
    case Purging(_, work, _) => if work != [] { assert forall it <- work[1..] :: it in work; }
    case Repairing(_, work, _) => if work != [] { assert forall it <- work[1..] :: it in work; }
    case _ =>
  }

  /** The row and its object are as they were. */
  ghost predicate Same(c: Core, c': Core, r: Ref) {
    && r in c.rows && r in c'.rows && c'.rows[r] == c.rows[r]
    && (r.key in c'.objects <==> r.key in c.objects)
    && (r.key in c.objects ==> c'.objects[r.key] == c.objects[r.key])
  }

  lemma StepPasses(c: Core, p: Proc, ch: Choice, r: Ref)
    requires CoreOk(c) && ProcOk(c, p)
    requires r in c.rows && c.rows[r].state.PhysicalDeletePending? && !Touches(p, r) && !Erases(p, r)
    ensures Same(c, Apply(c, Plan(c, p, ch).0), r)
  {
    assert RowOk(c, r) && r == Ref(r.key.org, r.key);
    PlanFootprint(c, p, ch);
    if (p.Purging? || p.Repairing?) && p.work != [] { assert p.work[0] in p.work; }
  }

  lemma NextPasses(s: State, a: Action, r: Ref)
    requires StateOk(s) && Stranded(s, r) && (a.Spawn? ==> !Touches(Start(a.op), r))
    ensures Stranded(Next(s, a), r) && Same(s.core, Next(s, a).core, r)
  {
    match a
    case Step(pid, choice) =>
      if pid in s.procs {
        StepPasses(s.core, s.procs[pid], choice, r);
        WorkAfterStep(s.core, s.procs[pid], choice, r);
      }
    case _ =>
  }

  /** A row left PHYSICAL_DELETE_PENDING stays so for ever, with its object, whatever else runs: deletion workers,
      repairs, deletion requests, reads, crashes; only an upload of the very same content takes it up again. */
  lemma {:induction false} StrandedStays(s: State, acts: seq<Action>, r: Ref)
    requires StateOk(s) && Stranded(s, r)
    requires forall a <- acts :: a.Spawn? ==> !Touches(Start(a.op), r)
    ensures Stranded(Run(s, acts), r) && Same(s.core, Run(s, acts).core, r)
  {
    if acts != [] {
      var before := acts[..|acts| - 1];
      StrandedStays(s, before, r);
      RunOk(s, before);
      NextPasses(Run(s, before), acts[|acts| - 1], r);
    }
  }

  /** No list of reconciliation, for any tenant, names a row that is PHYSICAL_DELETE_PENDING, or its key. */
  lemma StrandedUnreported(c: Core, org: nat, r: Ref)
    requires CoreOk(c) && r in c.rows && c.rows[r].state.PhysicalDeletePending?
    ensures var d := DriftOf(c, org);
            && r !in d.rowMissingObject && r !in d.corrupted && r !in d.pendingWithObject
            && r !in d.confirmedReappeared && r !in d.wrongPrefix && r.key !in d.objectMissingRow
  {
    assert RowOk(c, r) && r == Ref(r.key.org, r.key);
  }

  /** A deletion worker selects the artifact, nothing else being in flight. */
  lemma WorkerSelects(data: Bytes) returns (s: State, acts: seq<Action>)
    ensures s == Run(INITIAL, acts) && s.core.rows == map[Sample(data) := SampleRow(data, DeleteRequested)]
    ensures s.core.objects == map[Sample(data).key := data]
    ensures s.procs == map[2 := Purging(PurgeNext, [Item(Sample(data), DeleteRequested)], [])]
  {
    var ref := Sample(data);
    s, acts := UploadThenRequest(data);
    var c := s.core;
    s, acts := Take(s, acts, Crash(0));
    s, acts := Take(s, acts, Crash(1));
    assert s.core == c && s.procs == map[];
    s, acts := Take(s, acts, Spawn(2, OpPurge(0, [ref])));
    assert s.core == c && s.procs == map[2 := PurgeSelect(0, [ref])];
    assert PurgeWork(c, 0, [ref][1..]) == [];
    assert PurgeWork(c, 0, [ref]) == [Item(ref, DeleteRequested)];
    s, acts := Take(s, acts, Step(2, NO_FAULT));
  }

  /** The worker marks the row LOGICALLY_DELETED. */
  lemma WorkerBegins(data: Bytes) returns (s: State, acts: seq<Action>)
    ensures s == Run(INITIAL, acts) && s.core.rows == map[Sample(data) := SampleRow(data, LogicallyDeleted)]
    ensures s.core.objects == map[Sample(data).key := data]
    ensures s.procs == map[2 := Purging(Pending, [Item(Sample(data), DeleteRequested)], [])]
  {
    s, acts := WorkerSelects(data);
    s, acts := Take(s, acts, Step(2, NO_FAULT));
  }

  /** A crash of the deletion worker after its first transaction leaves the row LOGICALLY_DELETED, which the next run
      finishes. */
  lemma CrashBegun(data: Bytes) returns (acts: seq<Action>)
    ensures var s := Run(INITIAL, acts);
            s.core.rows == map[Sample(data) := SampleRow(data, LogicallyDeleted)] && s.procs == map[]
  {
    var s;
    s, acts := WorkerBegins(data);
    s, acts := Take(s, acts, Crash(2));
  }

  /** A crash after its second transaction leaves the row PHYSICAL_DELETE_PENDING for ever, its object in the store. */
  lemma CrashStrands(data: Bytes) returns (acts: seq<Action>)
    ensures var s := Run(INITIAL, acts);
            Stranded(s, Sample(data)) && Sample(data).key in s.core.objects && s.procs == map[]
  {
    var s;
    s, acts := WorkerBegins(data);
    s, acts := Take(s, acts, Step(2, NO_FAULT));
    assert s.core.rows == map[Sample(data) := SampleRow(data, PhysicalDeletePending)];
    s, acts := Take(s, acts, Crash(2));
  }
}
