/** One operation running alone, no store call failing: what physical deletion and repair do to the
    whole core, tied to the steps of the protocol. */
module Solo {
  import opened Records
  import opened Protocol
  import opened Integrity
  import opened Iteration
  import opened Reconciliation
  import opened Sequences

  datatype Config = Config(core: Core, proc: Proc)

  /** One step of an operation, no store call failing. */
  function Move(x: Config): Config {
    var (e, p) := Plan(x.core, x.proc, NO_FAULT);
    Config(Apply(x.core, e), p)
  }

  /** Running alone takes the operation from one configuration to the other. */
  ghost predicate RunsTo(x: Config, y: Config) { Reaches(Move, x, y) }

  /** An operation that runs alone is a run of the protocol, so whatever holds of all runs holds of it. */
  lemma {:induction false} SoloIsRun(x: Config, n: nat)
    ensures var y := Iterate(Move, x, n);
            Run(State(x.core, map[0 := x.proc]), seq(n, i => Step(0, NO_FAULT))) == State(y.core, map[0 := y.proc])
  {
    if n > 0 {
      var acts, before := seq(n, i => Step(0, NO_FAULT)), seq(n - 1, i => Step(0, NO_FAULT));
      SoloIsRun(x, n - 1);
      assert acts[..|acts| - 1] == before && acts[|acts| - 1] == Step(0, NO_FAULT);
      var y := Iterate(Move, x, n - 1);
      OneMove(y);
    }
  }

  lemma OneMove(y: Config)
    ensures Next(State(y.core, map[0 := y.proc]), Step(0, NO_FAULT)) == State(Move(y).core, map[0 := Move(y).proc])
  {
  }

  ghost predicate Ok(x: Config) { CoreOk(x.core) && ProcOk(x.core, x.proc) }

  ghost predicate Safe(x: Config) { Ok(x) && Served(x.core) && ProcSafe(x.core, x.proc) }

  lemma MoveKeeps(x: Config)
    requires Ok(x)
    ensures Ok(Move(x)) && (Safe(x) ==> Safe(Move(x)))
  {
    var e := Plan(x.core, x.proc, NO_FAULT).0;
    PlanOk(x.core, x.proc, NO_FAULT);
    EffectKeepsCore(x.core, e);
    if Safe(x) {
      PlanSafe(x.core, x.proc, NO_FAULT);
      StepKeepsServedIff(x.core, e);
    }
  }

  lemma {:induction false} IterateKeeps(x: Config, n: nat)
    requires Ok(x)
    ensures Ok(Iterate(Move, x, n)) && (Safe(x) ==> Safe(Iterate(Move, x, n)))
  {
    if n > 0 {
      IterateKeeps(x, n - 1);
      MoveKeeps(Iterate(Move, x, n - 1));
    }
  }

  /** Running alone keeps everything the protocol keeps. */
  lemma SoloKeeps(x: Config, y: Config)
    requires Ok(x) && RunsTo(x, y)
    ensures Ok(y) && (Safe(x) ==> Safe(y))
  {
    var n: nat :| Iterate(Move, x, n) == y;
    IterateKeeps(x, n);
  }

  // ---------------------------------------------------------------- physical deletion

  /** The events of one physical deletion, in lifecycle order. */
  function PurgeEvents(it: Item): seq<Event> {
    (if it.seen.DeleteRequested? then [Event(it.ref, DeleteRequested, LogicallyDeleted)] else [])
    + [Event(it.ref, LogicallyDeleted, PhysicalDeletePending), Event(it.ref, PhysicalDeletePending, PhysicallyConfirmed)]
  }

  function PurgeOne(c: Core, it: Item): Core {
    Core(SetState(c.rows, it.ref, PhysicallyConfirmed), c.objects - {it.ref.key}, c.audit + PurgeEvents(it), c.clock)
  }

  function PurgeAll(c: Core, work: seq<Item>): Core
    decreases |work|
  {
    if work == [] then c else PurgeAll(PurgeOne(c, work[0]), work[1..])
  }

  function Confirmations(work: seq<Item>): (results: seq<(Ref, LifeState)>)
    ensures |results| == |work| && forall i :: 0 <= i < |work| ==> results[i] == (work[i].ref, PhysicallyConfirmed)
  {
    seq(|work|, i requires 0 <= i < |work| => (work[i].ref, PhysicallyConfirmed))
  }

  function SetState(rows: map<Ref, Row>, ref: Ref, state: LifeState): map<Ref, Row> {
    if ref in rows then rows[ref := rows[ref].(state := state)] else rows
  }

  lemma PurgeMarks(c: Core, work: seq<Item>, results: seq<(Ref, LifeState)>, c': Core)
    requires work != []
    requires c' == Core(SetState(c.rows, work[0].ref, PhysicalDeletePending), c.objects, c'.audit, c.clock)
    requires c'.audit + [Event(work[0].ref, PhysicalDeletePending, PhysicallyConfirmed)] == c.audit + PurgeEvents(work[0])
    ensures RunsTo(Config(c, Purging(PurgeNext, work, results)), Config(c', Purging(RemoveObject, work, results)))
  {
    var x, ref := Config(c, Purging(PurgeNext, work, results)), work[0].ref;
    ReachesSelf(Move, x);
    ReachesNext(Move, x, x);
    if work[0].seen.DeleteRequested? { ReachesNext(Move, x, Move(x)); }
    var y := if work[0].seen.DeleteRequested? then Move(Move(x)) else Move(x);
    assert c'.audit == y.core.audit by {
      assert c'.audit == (c'.audit + [Event(ref, PhysicalDeletePending, PhysicallyConfirmed)])[..|c'.audit|];
      assert y.core.audit == (c.audit + PurgeEvents(work[0]))[..|y.core.audit|];
    }
    assert c'.rows == y.core.rows;
  }

  lemma PurgeFinishes(c: Core, work: seq<Item>, results: seq<(Ref, LifeState)>)
    requires work != []
    ensures var ref := work[0].ref;
            RunsTo(Config(c, Purging(RemoveObject, work, results)),
                   Config(Core(SetState(c.rows, ref, PhysicallyConfirmed), c.objects - {ref.key},
                               c.audit + [Event(ref, PhysicalDeletePending, PhysicallyConfirmed)], c.clock),
                          Purging(PurgeNext, work[1..], results + [(ref, PhysicallyConfirmed)])))
  {
    var x, ref := Config(c, Purging(RemoveObject, work, results)), work[0].ref;
    var c1 := c.(objects := c.objects - {ref.key});
    ReachesSelf(Move, x);
    ReachesNext(Move, x, x);
    assert Move(x) == Config(c1, Purging(Probe, work, results));
    ReachesNext(Move, x, Move(x));
    assert Move(Move(x)) == Config(c1, Purging(Protocol.Confirm, work, results));
    ReachesNext(Move, x, Move(Move(x)));
  }

  lemma PurgeOneRuns(c: Core, work: seq<Item>, results: seq<(Ref, LifeState)>)
    requires work != []
    ensures RunsTo(Config(c, Purging(PurgeNext, work, results)),
                   Config(PurgeOne(c, work[0]),
                          Purging(PurgeNext, work[1..], results + [(work[0].ref, PhysicallyConfirmed)])))
  {
    var ref := work[0].ref;
    var trail := c.audit + PurgeEvents(work[0]);
    var c1 := Core(SetState(c.rows, ref, PhysicalDeletePending), c.objects, trail[..|trail| - 1], c.clock);
    assert c1.audit + [Event(ref, PhysicalDeletePending, PhysicallyConfirmed)] == trail;
    PurgeMarks(c, work, results, c1);
    PurgeFinishes(c1, work, results);
    assert SetState(c1.rows, ref, PhysicallyConfirmed) == PurgeOne(c, work[0]).rows;
    ReachesTrans(Move, Config(c, Purging(PurgeNext, work, results)), Config(c1, Purging(RemoveObject, work, results)),
                 Config(PurgeOne(c, work[0]), Purging(PurgeNext, work[1..], results + [(ref, PhysicallyConfirmed)])));
  }

  lemma ConfirmOneMore(work: seq<Item>, results: seq<(Ref, LifeState)>)
    requires work != []
    ensures results + [(work[0].ref, PhysicallyConfirmed)] + Confirmations(work[1..]) == results + Confirmations(work)
  {
  }

  lemma PurgeEnds(c: Core, results: seq<(Ref, LifeState)>)
    ensures RunsTo(Config(c, Purging(PurgeNext, [], results)), Config(c, Done(Purged(results))))
  {
    var x := Config(c, Purging(PurgeNext, [], results));
    ReachesSelf(Move, x);
    ReachesNext(Move, x, x);
  }

  lemma {:induction false} PurgeAllRuns(c: Core, work: seq<Item>, results: seq<(Ref, LifeState)>)
    ensures RunsTo(Config(c, Purging(PurgeNext, work, results)),
                   Config(PurgeAll(c, work), Done(Purged(results + Confirmations(work)))))
    decreases |work|
  {
    if work == [] {
      assert results + Confirmations(work) == results;
      PurgeEnds(c, results);
    } else {
      var more, c1 := results + [(work[0].ref, PhysicallyConfirmed)], PurgeOne(c, work[0]);
      PurgeOneRuns(c, work, results);
      PurgeAllRuns(c1, work[1..], more);
      ConfirmOneMore(work, results);
      ReachesTrans(Move, Config(c, Purging(PurgeNext, work, results)), Config(c1, Purging(PurgeNext, work[1..], more)),
                   Config(PurgeAll(c, work), Done(Purged(results + Confirmations(work)))));
    }
  }

  ghost predicate Selected(work: seq<Item>, r: Ref) { exists it <- work :: it.ref == r }

  lemma {:induction false} SelectedTail(work: seq<Item>, r: Ref)
    requires work != []
    ensures Selected(work, r) <==> work[0].ref == r || Selected(work[1..], r)
  {
    if Selected(work, r) && work[0].ref != r {
      var it :| it in work && it.ref == r;
      assert it in work[1..];
    }
    if work[0].ref == r { assert work[0] in work; }
    if Selected(work[1..], r) { var it :| it in work[1..] && it.ref == r; assert it in work; }
  }

  function PurgeTrail(work: seq<Item>): seq<Event> {
    if work == [] then [] else PurgeEvents(work[0]) + PurgeTrail(work[1..])
  }

  /** A completed physical deletion: every selected row is PHYSICALLY_CONFIRMED and its object absent;
      every other row and every other object is as before; the trail grew by the lifecycle of each
      selected row, in order. */
  lemma {:induction false} PurgeAllOutcome(c: Core, work: seq<Item>)
    ensures var c' := PurgeAll(c, work);
            && c'.rows.Keys == c.rows.Keys
            && (forall r :: r in c.rows ==>
                  c'.rows[r] == if Selected(work, r) then c.rows[r].(state := PhysicallyConfirmed) else c.rows[r])
            && (forall k :: k in c'.objects ==> k in c.objects && c'.objects[k] == c.objects[k])
            && (forall k :: k in c.objects ==> (k in c'.objects <==> forall it <- work :: it.ref.key != k))
            && c'.audit == c.audit + PurgeTrail(work) && c'.clock == c.clock
    decreases |work|
  {
    if work != [] {
      var c1 := PurgeOne(c, work[0]);
      var c' := PurgeAll(c, work);
      PurgeAllOutcome(c1, work[1..]);
      assert c'.rows.Keys == c.rows.Keys;
      forall r | r in c.rows
        ensures c'.rows[r] == if Selected(work, r) then c.rows[r].(state := PhysicallyConfirmed) else c.rows[r]
      {
        SelectedTail(work, r);
      }
      forall k | k in c.objects ensures k in c'.objects <==> forall it <- work :: it.ref.key != k {
        KeySelectedTail(work, k);
      }
    }
  }

  lemma {:induction false} KeySelectedTail(work: seq<Item>, k: Key)
    requires work != []
    ensures (forall it <- work :: it.ref.key != k) <==> work[0].ref.key != k && forall it <- work[1..] :: it.ref.key != k
  {
    assert work[0] in work;
    assert forall it <- work[1..] :: it in work;
    assert forall it <- work :: it == work[0] || it in work[1..];
  }

  /** The rows a deletion run takes up: those of the tenant whose deletion has been requested or begun and that
      neither legal hold nor retention protects. */
  ghost function Chosen(c: Core, org: nat, scan: seq<Ref>): set<Ref> {
    set r | r in scan && r in c.rows && r.org == org
            && (c.rows[r].state.DeleteRequested? || c.rows[r].state.LogicallyDeleted?)
            && !c.rows[r].legalHold && (c.rows[r].retainUntil.None? || c.rows[r].retainUntil.value <= c.clock)
  }

  /** What the work of a scan amounts to, row by row and object by object. */
  lemma PurgeScanOutcome(c: Core, org: nat, scan: seq<Ref>)
    ensures var c', chosen := PurgeAll(c, PurgeWork(c, org, scan)), Chosen(c, org, scan);
            && c'.rows == (map r | r in c.rows :: if r in chosen then c.rows[r].(state := PhysicallyConfirmed)
                                                  else c.rows[r])
            && c'.objects == (map k | k in c.objects && (forall r <- chosen :: r.key != k) :: c.objects[k])
  {
    PurgeAllOutcome(c, PurgeWork(c, org, scan));
    SelectedIsChosen(c, org, scan);
    forall k | k in c.objects { KeyOfChosen(c, org, scan, k); }
  }

  lemma KeyOfChosen(c: Core, org: nat, scan: seq<Ref>, k: Key)
    ensures (forall it <- PurgeWork(c, org, scan) :: it.ref.key != k) <==> forall r <- Chosen(c, org, scan) :: r.key != k
  {
    var work, chosen := PurgeWork(c, org, scan), Chosen(c, org, scan);
    SelectedIsChosen(c, org, scan);
    if it :| it in work && it.ref.key == k { assert it.ref in chosen; }
    if r :| r in chosen && r.key == k { assert Selected(work, r); }
  }

  lemma SelectedIsChosen(c: Core, org: nat, scan: seq<Ref>)
    ensures forall r :: Selected(PurgeWork(c, org, scan), r) <==> r in Chosen(c, org, scan)
    ensures forall it <- PurgeWork(c, org, scan) :: it.ref in Chosen(c, org, scan)
  {
    var work := PurgeWork(c, org, scan);
    PurgeWorkErasable(c, org, scan);
    PurgeWorkFromScan(c, org, scan);
    forall r | r in Chosen(c, org, scan) ensures Selected(work, r) {
      assert Purgeable(c, org, r) && Item(r, c.rows[r].state) in work;
    }
  }

  /** The lifecycle a deletion run takes a row through, if it takes it up. */
  function LifecycleOf(c: Core, org: nat, r: Ref): seq<Event> {
    if !(r in c.rows && r.org == org && !c.rows[r].legalHold
         && (c.rows[r].retainUntil.None? || c.rows[r].retainUntil.value <= c.clock)) then []
    else if c.rows[r].state.DeleteRequested? then
      [Event(r, DeleteRequested, LogicallyDeleted), Event(r, LogicallyDeleted, PhysicalDeletePending),
       Event(r, PhysicalDeletePending, PhysicallyConfirmed)]
    else if c.rows[r].state.LogicallyDeleted? then
      [Event(r, LogicallyDeleted, PhysicalDeletePending), Event(r, PhysicalDeletePending, PhysicallyConfirmed)]
    else []
  }

  lemma LifecycleIs(c: Core, org: nat, r: Ref)
    ensures LifecycleOf(c, org, r) == if Purgeable(c, org, r) then PurgeEvents(Item(r, c.rows[r].state)) else []
  {
  }

  /** The events of a deletion run: for each row of the scan, in order, its lifecycle if it is taken up. */
  lemma {:induction false} PurgeScanTrail(c: Core, org: nat, scan: seq<Ref>) returns (trail: seq<seq<Event>>)
    ensures PurgeTrail(PurgeWork(c, org, scan)) == Concat(trail) && |trail| == |scan|
    ensures forall i :: 0 <= i < |scan| ==> trail[i] == LifecycleOf(c, org, scan[i])
  {
    trail := [];
    if scan != [] {
      var rest := PurgeScanTrail(c, org, scan[1..]);
      trail := [LifecycleOf(c, org, scan[0])] + rest;
      assert trail[1..] == rest;
      LifecycleIs(c, org, scan[0]);
      PurgeTrailFirst(c, org, scan);
    }
  }

  lemma PurgeTrailFirst(c: Core, org: nat, scan: seq<Ref>)
    requires scan != []
    ensures PurgeTrail(PurgeWork(c, org, scan))
         == (if Purgeable(c, org, scan[0]) then PurgeEvents(Item(scan[0], c.rows[scan[0]].state)) else [])
            + PurgeTrail(PurgeWork(c, org, scan[1..]))
  {
    var rest := PurgeWork(c, org, scan[1..]);
    if Purgeable(c, org, scan[0]) {
      var work := [Item(scan[0], c.rows[scan[0]].state)] + rest;
      assert work[1..] == rest && PurgeWork(c, org, scan) == work;
    } else {
      assert PurgeWork(c, org, scan) == rest;
    }
  }

  /** ... told by the rows before and after. */
  lemma PurgeTrailByRows(c: Core, org: nat, scan: seq<Ref>) returns (trail: seq<seq<Event>>)
    ensures var c' := PurgeAll(c, PurgeWork(c, org, scan));
            && c'.audit == c.audit + Concat(trail) && |trail| == |scan| && c'.clock == c.clock
            && forall i :: 0 <= i < |scan| ==>
                 var r := scan[i];
                 trail[i] == if r !in c.rows || r !in c'.rows || c'.rows[r] == c.rows[r] then []
                             else if c.rows[r].state.DeleteRequested? then
                               [Event(r, DeleteRequested, LogicallyDeleted),
                                Event(r, LogicallyDeleted, PhysicalDeletePending),
                                Event(r, PhysicalDeletePending, PhysicallyConfirmed)]
                             else
                               [Event(r, LogicallyDeleted, PhysicalDeletePending),
                                Event(r, PhysicalDeletePending, PhysicallyConfirmed)]
  {
    trail := PurgeScanTrail(c, org, scan);
    PurgeAllOutcome(c, PurgeWork(c, org, scan));
    PurgeScanOutcome(c, org, scan);
  }

  lemma PurgeScanResults(c: Core, org: nat, scan: seq<Ref>)
    ensures var results, chosen := Confirmations(PurgeWork(c, org, scan)), Chosen(c, org, scan);
            && (forall res <- results :: res.0 in chosen && res.1.PhysicallyConfirmed?)
            && (forall r <- chosen :: (r, PhysicallyConfirmed) in results)
  {
    var work := PurgeWork(c, org, scan);
    SelectedIsChosen(c, org, scan);
    forall r | r in Chosen(c, org, scan) ensures (r, PhysicallyConfirmed) in Confirmations(work) {
      assert Selected(work, r);
      var i :| 0 <= i < |work| && work[i].ref == r;
      assert Confirmations(work)[i] == (r, PhysicallyConfirmed);
    }
  }

  lemma PurgeRunRefines(c: Core, org: nat, scan: seq<Ref>)
    ensures var work := PurgeWork(c, org, scan);
            RunsTo(Config(c, PurgeSelect(org, scan)), Config(PurgeAll(c, work), Done(Purged(Confirmations(work)))))
  {
    var work := PurgeWork(c, org, scan);
    var x, y := Config(c, PurgeSelect(org, scan)), Config(c, Purging(PurgeNext, work, []));
    ReachesSelf(Move, x);
    ReachesNext(Move, x, x);
    PurgeAllRuns(c, work, []);
    assert [] + Confirmations(work) == Confirmations(work);
    ReachesTrans(Move, x, y, Config(PurgeAll(c, work), Done(Purged(Confirmations(work)))));
  }

  lemma {:induction false} PurgeWorkFromScan(c: Core, org: nat, scan: seq<Ref>)
    ensures forall it <- PurgeWork(c, org, scan) :: it.ref in scan
  {
    if scan != [] { PurgeWorkFromScan(c, org, scan[1..]); }
  }

  // ---------------------------------------------------------------- repair

  datatype Verdict = Recovers | FailsUpload | IsOrphan | IsFine

  function Judge(c: Core, it: Item): Verdict {
    if it.seen.PendingUpload? then
      if it.ref in c.rows && Verifies(c, it.ref.key, c.rows[it.ref].hash) then Recovers else FailsUpload
    else if it.seen.Available? && it.ref.key !in c.objects then IsOrphan
    else IsFine
  }

  function RepairOne(c: Core, it: Item): Core {
    match Judge(c, it)
    case Recovers => Apply(c, Mark(it.ref, PendingUpload, Available, None))
    case FailsUpload => Apply(c, Mark(it.ref, PendingUpload, UploadFailed, None))
    case IsOrphan => Apply(c, Mark(it.ref, Available, DeleteFailed, None))
    case IsFine => c
  }

  function RepairAll(c: Core, work: seq<Item>): Core
    decreases |work|
  {
    if work == [] then c else RepairAll(RepairOne(c, work[0]), work[1..])
  }

  function TallyOne(c: Core, it: Item, report: Report): Report {
    match Judge(c, it)
    case Recovers => report.(recovered := report.recovered + [it.ref])
    case FailsUpload => report.(failed := report.failed + [it.ref])
    case IsOrphan => report.(orphans := report.orphans + [it.ref])
    case IsFine => report
  }

  function Tally(c: Core, work: seq<Item>, report: Report): Report
    decreases |work|
  {
    if work == [] then report else Tally(c, work[1..], TallyOne(c, work[0], report))
  }

  lemma RepairOneRuns(c: Core, work: seq<Item>, report: Report)
    requires work != []
    ensures RunsTo(Config(c, Repairing(RepairNext, work, report)),
                   Config(RepairOne(c, work[0]), Repairing(RepairNext, work[1..], TallyOne(c, work[0], report))))
  {
    var x := Config(c, Repairing(RepairNext, work, report));
    ReachesSelf(Move, x);
    ReachesNext(Move, x, x);
    if work[0].seen.PendingUpload? || (work[0].seen.Available? && work[0].ref.key !in c.objects) {
      ReachesNext(Move, x, Move(x));
      if work[0].seen.PendingUpload? && work[0].ref.key in c.objects { ReachesNext(Move, x, Move(Move(x))); }
    }
  }

  /** A repair changes neither the store nor what decides the fate of the other rows. */
  lemma RepairOneKeepsVerdicts(c: Core, it: Item, other: Item)
    ensures Judge(RepairOne(c, it), other) == Judge(c, other)
  {
  }

  lemma {:induction false} RepairOneKeepsTally(c: Core, it: Item, work: seq<Item>, report: Report)
    ensures Tally(RepairOne(c, it), work, report) == Tally(c, work, report)
    decreases |work|
  {
    if work != [] {
      RepairOneKeepsVerdicts(c, it, work[0]);
      RepairOneKeepsTally(c, it, work[1..], TallyOne(c, work[0], report));
    }
  }

  lemma {:induction false} RepairAllRuns(c: Core, work: seq<Item>, report: Report)
    ensures RunsTo(Config(c, Repairing(RepairNext, work, report)),
                   Config(RepairAll(c, work), Done(Repaired(Tally(c, work, report)))))
    decreases |work|
  {
    var x := Config(c, Repairing(RepairNext, work, report));
    if work == [] {
      ReachesSelf(Move, x);
      ReachesNext(Move, x, x);
    } else {
      var c1, report1 := RepairOne(c, work[0]), TallyOne(c, work[0], report);
      RepairOneRuns(c, work, report);
      RepairAllRuns(c1, work[1..], report1);
      RepairOneKeepsTally(c, work[0], work[1..], report1);
      ReachesTrans(Move, x, Config(c1, Repairing(RepairNext, work[1..], report1)),
                   Config(RepairAll(c, work), Done(Repaired(Tally(c, work, report)))));
    }
  }

  /** The state repair gives a row seen in state `it.seen`. */
  function Fixed(c: Core, it: Item): LifeState {
    match Judge(c, it)
    case Recovers => Available
    case FailsUpload => UploadFailed
    case IsOrphan => DeleteFailed
    case IsFine => it.seen
  }

  lemma {:induction false} RepairAllOutcome(c: Core, work: seq<Item>)
    ensures var c' := RepairAll(c, work);
            c'.objects == c.objects && c'.clock == c.clock && c'.rows.Keys == c.rows.Keys
            && forall r :: r in c.rows ==> c'.rows[r].hash == c.rows[r].hash
    decreases |work|
  {
    if work != [] { RepairAllOutcome(RepairOne(c, work[0]), work[1..]); }
  }

  lemma {:induction false} UnselectedRowKept(c: Core, work: seq<Item>, r: Ref)
    requires r in c.rows && !Selected(work, r)
    ensures r in RepairAll(c, work).rows && RepairAll(c, work).rows[r] == c.rows[r]
    decreases |work|
  {
    if work != [] {
      SelectedTail(work, r);
      UnselectedRowKept(RepairOne(c, work[0]), work[1..], r);
    }
  }

  function Settle(c: Core, it: Item, row: Row): Row {
    if Judge(c, it).IsFine? then row else row.(state := Fixed(c, it))
  }

  lemma {:induction false} SelectedRowSettled(c: Core, work: seq<Item>, it: Item)
    requires it in work && it.ref in c.rows && forall o <- work :: o.ref == it.ref ==> o == it
    ensures it.ref in RepairAll(c, work).rows && RepairAll(c, work).rows[it.ref] == Settle(c, it, c.rows[it.ref])
    decreases |work|
  {
    var c1 := RepairOne(c, work[0]);
    assert forall o <- work[1..] :: o in work;
    RepairOneKeepsVerdicts(c, work[0], it);
    if it in work[1..] {
      SelectedRowSettled(c1, work[1..], it);
      assert c1.rows[it.ref] == if work[0].ref == it.ref then Settle(c, it, c.rows[it.ref]) else c.rows[it.ref];
    } else {
      assert !Selected(work[1..], it.ref);
      UnselectedRowKept(c1, work[1..], it.ref);
    }
  }

  /** The state repair leaves row `r` in. */
  function RepairedState(c: Core, r: Ref): LifeState
    requires r in c.rows
  {
    var row := c.rows[r];
    if row.state.PendingUpload? then if Verifies(c, r.key, row.hash) then Available else UploadFailed
    else if row.state.Available? && r.key !in c.objects then DeleteFailed
    else row.state
  }

  /** The scan returns every row of the tenant. */
  ghost predicate Covers(c: Core, org: nat, scan: seq<Ref>) { forall r :: r in c.rows && r.org == org ==> r in scan }

  /** A completed repair, whatever state it starts from: each row of the tenant is left in its repaired
      state, every other row and the whole store are untouched. */
  lemma RepairOutcome(c: Core, org: nat, scan: seq<Ref>)
    requires Covers(c, org, scan)
    ensures var c' := RepairAll(c, RepairWork(c, org, scan));
            && c'.rows.Keys == c.rows.Keys && c'.objects == c.objects && c'.clock == c.clock
            && forall r :: r in c.rows ==>
                 c'.rows[r] == if r.org == org then c.rows[r].(state := RepairedState(c, r)) else c.rows[r]
  {
    var work := RepairWork(c, org, scan);
    var c' := RepairAll(c, work);
    RepairAllOutcome(c, work);
    RepairWorkRepairable(c, org, scan);
    forall r | r in c.rows
      ensures c'.rows[r] == if r.org == org then c.rows[r].(state := RepairedState(c, r)) else c.rows[r]
    {
      if Repairable(c, org, r) {
        SelectedRowSettled(c, work, Item(r, c.rows[r].state));
      } else {
        UnselectedRowKept(c, work, r);
      }
    }
  }

  /** The events of a repair: for each row of the scan, in order, the transition it makes, if any. */
  lemma {:induction false} RepairTrail(c: Core, c0: Core, org: nat, scan: seq<Ref>) returns (trail: seq<seq<Event>>)
    requires c.objects == c0.objects && c.rows.Keys == c0.rows.Keys
    requires forall r <- c.rows :: c.rows[r].hash == c0.rows[r].hash
    ensures RepairAll(c, RepairWork(c0, org, scan)).audit == c.audit + Concat(trail) && |trail| == |scan|
    ensures forall i :: 0 <= i < |scan| ==> trail[i] == RepairEvents(c0, org, scan[i])
    decreases |scan|
  {
    trail := [];
    if scan != [] {
      var r := scan[0];
      var c1 := if Repairable(c0, org, r) then RepairOne(c, Item(r, c0.rows[r].state)) else c;
      var rest := RepairTrail(c1, c0, org, scan[1..]);
      trail := [RepairEvents(c0, org, r)] + rest;
      assert trail[1..] == rest && c1.audit == c.audit + trail[0];
      RepairFirst(c, c0, org, scan);
    }
  }

  /** ... told by the rows before and after. */
  lemma RepairTrailByRows(c: Core, org: nat, scan: seq<Ref>) returns (trail: seq<seq<Event>>)
    requires Covers(c, org, scan)
    ensures var c' := RepairAll(c, RepairWork(c, org, scan));
            && c'.audit == c.audit + Concat(trail) && |trail| == |scan|
            && forall i :: 0 <= i < |scan| ==>
                 var r := scan[i];
                 trail[i] == if r !in c.rows || r !in c'.rows || c'.rows[r].state == c.rows[r].state then []
                             else [Event(r, c.rows[r].state, c'.rows[r].state)]
  {
    trail := RepairTrail(c, c, org, scan);
    RepairOutcome(c, org, scan);
  }

  lemma RepairFirst(c: Core, c0: Core, org: nat, scan: seq<Ref>)
    requires scan != []
    ensures var r := scan[0];
            var c1 := if Repairable(c0, org, r) then RepairOne(c, Item(r, c0.rows[r].state)) else c;
            RepairAll(c, RepairWork(c0, org, scan)) == RepairAll(c1, RepairWork(c0, org, scan[1..]))
  {
    var rest := RepairWork(c0, org, scan[1..]);
    if Repairable(c0, org, scan[0]) {
      assert RepairWork(c0, org, scan) == [Item(scan[0], c0.rows[scan[0]].state)] + rest;
    } else {
      assert RepairWork(c0, org, scan) == rest;
    }
  }

  /** The transition a repair makes of a row. */
  function RepairEvents(c: Core, org: nat, r: Ref): seq<Event> {
    if !(r in c.rows && r.org == org) then []
    else if c.rows[r].state.PendingUpload? then
      [Event(r, PendingUpload, if r.key in c.objects && Sha256(c.objects[r.key]) == c.rows[r].hash then Available
                               else UploadFailed)]
    else if c.rows[r].state.Available? && r.key !in c.objects then [Event(r, Available, DeleteFailed)]
    else []
  }

  lemma {:induction false} NothingToRepair(c: Core, work: seq<Item>, report: Report)
    requires forall it <- work :: Judge(c, it).IsFine?
    ensures RepairAll(c, work) == c && Tally(c, work, report) == report
    decreases |work|
  {
    if work != [] {
      assert work[0] in work && forall it <- work[1..] :: it in work;
      NothingToRepair(c, work[1..], report);
    }
  }

  /** After a repair no upload of the tenant is pending and every served row has its object, so two of
      the lists of reconciliation are empty; a second repair changes nothing and reports nothing. */
  lemma RepairSettles(c: Core, org: nat, scan: seq<Ref>, again: seq<Ref>)
    requires Covers(c, org, scan)
    ensures var c' := RepairAll(c, RepairWork(c, org, scan));
            && (forall r :: r in c'.rows && r.org == org ==>
                  (!c'.rows[r].state.PendingUpload? && (c'.rows[r].state.Available? ==> r.key in c'.objects)))
            && DriftOf(c', org).pendingWithObject == {} && DriftOf(c', org).rowMissingObject == {}
            && RepairAll(c', RepairWork(c', org, again)) == c'
            && Tally(c', RepairWork(c', org, again), Report([], [], [])) == Report([], [], [])
  {
    var c' := RepairAll(c, RepairWork(c, org, scan));
    RepairOutcome(c, org, scan);
    RepairWorkRepairable(c', org, again);
    NothingToRepair(c', RepairWork(c', org, again), Report([], [], []));
  }
}
