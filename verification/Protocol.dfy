/** The artifact lifecycle protocol. Metadata rows live in a database, bytes live in an object store,
    and no transaction spans the two. Every transaction and every store call is one atomic step of an
    operation in flight; operations interleave freely, may stop for ever between any two steps, and
    any store call may fail, with or without having taken effect. */
module Protocol {
  import opened Records

  /** What survives a crash: the rows, the objects, the append-only audit, and the clock. */
  datatype Core = Core(rows: map<Ref, Row>, objects: map<Key, Bytes>, audit: seq<Event>, clock: nat)

  /** What one atomic step does to the core. */
  datatype Effect =
    | NoEffect
    | Insert(ref: Ref, hold: bool, retain: Option<nat>)
    | Mark(ref: Ref, prior: LifeState, next: LifeState, size: Option<nat>)
    | Request(ref: Ref)
    | Write(key: Key, data: Bytes)
    | Remove(key: Key)

  function Update(row: Row, next: LifeState, size: Option<nat>): Row {
    row.(state := next, byteSize := if size.Some? then size else row.byteSize)
  }

  function Apply(c: Core, e: Effect): Core {
    match e
    case NoEffect => c
    case Insert(ref, hold, retain) =>
      if ref in c.rows then c
      else c.(rows := c.rows[ref := Row(ref.key.hash, None, PendingUpload, hold, retain)])
    case Mark(ref, prior, next, size) =>
      c.(rows := if ref in c.rows then c.rows[ref := Update(c.rows[ref], next, size)] else c.rows,
         audit := c.audit + [Event(ref, prior, next)])
    case Request(ref) =>
      c.(rows := if ref in c.rows && c.rows[ref].state.Available?
                 then c.rows[ref := Update(c.rows[ref], DeleteRequested, None)] else c.rows,
         audit := c.audit + [Event(ref, Available, DeleteRequested)])
    case Write(key, data) => if key in c.objects then c else c.(objects := c.objects[key := data])
    case Remove(key) => c.(objects := c.objects - {key})
  }

  /** A row selected for processing, with the state it was seen in. */
  datatype Item = Item(ref: Ref, seen: LifeState)

  datatype Report = Report(recovered: seq<Ref>, failed: seq<Ref>, orphans: seq<Ref>)

  datatype Outcome =
    | UnknownClass | Stored(ref: Ref) | Corrupt | UploadError | StoreError
    | NotAvailable | Content(data: Bytes)
    | NotFound | BlockedByHold | BlockedByRetention | Requested
    | Purged(results: seq<(Ref, LifeState)>)
    | Repaired(report: Report)

  datatype PutStage =
    | Lookup | CheckHead | CheckVerify | CheckFail | InsertRow | WriteObject | Head | Verify | Commit | Failed

  datatype PurgeStage = PurgeNext | Pending | RemoveObject | Probe | Confirm | PurgeFailed

  datatype RepairStage = RepairNext | VerifyObject | Recover | Reject | Orphan

  /** An operation in flight: where it stands and what it remembers. */
  datatype Proc =
    | Putting(at: PutStage, ref: Ref, data: Bytes, hold: bool, retain: Option<nat>)
    | GetLookup(org: nat, ref: Ref)
    | GetRead(ref: Ref, hash: nat)
    | DeleteRequest(org: nat, ref: Ref)
    | PurgeSelect(org: nat, scan: seq<Ref>)
    | Purging(step: PurgeStage, work: seq<Item>, results: seq<(Ref, LifeState)>)
    | RepairSelect(org: nat, scan: seq<Ref>)
    | Repairing(stage: RepairStage, work: seq<Item>, report: Report)
    | Done(outcome: Outcome)

  /** The requests a client may make. `scan` is the order in which the database returns rows. */
  datatype Op =
    | OpPut(org: nat, class_: string, data: Bytes, hold: bool, retain: Option<nat>, job: Option<nat>)
    | OpGet(org: nat, ref: Ref)
    | OpRequestDelete(org: nat, ref: Ref)
    | OpPurge(org: nat, scan: seq<Ref>)
    | OpRepair(org: nat, scan: seq<Ref>)

  function Start(op: Op): Proc {
    match op
    case OpPut(org, class_, data, hold, retain, job) =>
      if class_ !in ARTIFACT_CLASSES then Done(UnknownClass)
      else Putting(Lookup, Ref(org, Key(org, class_, Sha256(data), job)), data, hold, retain)
    case OpGet(org, ref) => GetLookup(org, ref)
    case OpRequestDelete(org, ref) => DeleteRequest(org, ref)
    case OpPurge(org, scan) => PurgeSelect(org, scan)
    case OpRepair(org, scan) => RepairSelect(org, scan)
  }

  /** What the environment decides about one step: whether the store call fails, and whether a
      failing write or removal took effect all the same. */
  datatype Choice = Choice(fault: bool, applied: bool)

  const NO_FAULT := Choice(false, true)

  predicate Verifies(c: Core, key: Key, hash: nat) { key in c.objects && Sha256(c.objects[key]) == hash }

  predicate HeadFits(c: Core, key: Key, data: Bytes) { key in c.objects && |c.objects[key]| == |data| }

  predicate Purgeable(c: Core, org: nat, ref: Ref) {
    ref in c.rows && ref.org == org && (c.rows[ref].state.DeleteRequested? || c.rows[ref].state.LogicallyDeleted?)
    && Erasable(c.rows[ref], c.clock)
  }

  predicate Repairable(c: Core, org: nat, ref: Ref) {
    ref in c.rows && ref.org == org && (c.rows[ref].state.PendingUpload? || c.rows[ref].state.Available?)
  }

  function PurgeWork(c: Core, org: nat, scan: seq<Ref>): (work: seq<Item>) {
    if scan == [] then []
    else (if Purgeable(c, org, scan[0]) then [Item(scan[0], c.rows[scan[0]].state)] else [])
         + PurgeWork(c, org, scan[1..])
  }

  function RepairWork(c: Core, org: nat, scan: seq<Ref>): (work: seq<Item>) {
    if scan == [] then []
    else (if Repairable(c, org, scan[0]) then [Item(scan[0], c.rows[scan[0]].state)] else [])
         + RepairWork(c, org, scan[1..])
  }

  function PlanPut(c: Core, p: Proc, ch: Choice): (Effect, Proc)
    requires p.Putting?
  {
    match p.at
    case Lookup =>
      (NoEffect, p.(at := if p.ref in c.rows && c.rows[p.ref].state.Available? then CheckHead else InsertRow))
    case CheckHead =>
      (NoEffect, if ch.fault then Done(StoreError)
                 else p.(at := if HeadFits(c, p.ref.key, p.data) then CheckVerify else CheckFail))
    case CheckVerify =>
      (NoEffect, if !ch.fault && Verifies(c, p.ref.key, Sha256(p.data)) then Done(Stored(p.ref))
                 else p.(at := CheckFail))
    case CheckFail => (Mark(p.ref, Available, DeleteFailed, None), Done(Corrupt))
    case InsertRow => (Insert(p.ref, p.hold, p.retain), p.(at := WriteObject))
    case WriteObject =>
      if p.ref.key in c.objects && Sha256(c.objects[p.ref.key]) != Sha256(p.data) then (NoEffect, p.(at := Failed))
      else if ch.fault then (if ch.applied then Write(p.ref.key, p.data) else NoEffect, p.(at := Failed))
      else (Write(p.ref.key, p.data), p.(at := Head))
    case Head => (NoEffect, p.(at := if !ch.fault && HeadFits(c, p.ref.key, p.data) then Verify else Failed))
    case Verify =>
      (NoEffect, p.(at := if !ch.fault && Verifies(c, p.ref.key, Sha256(p.data)) then Commit else Failed))
    case Commit => (Mark(p.ref, PendingUpload, Available, Some(|p.data|)), Done(Stored(p.ref)))
    case Failed => (Mark(p.ref, PendingUpload, UploadFailed, None), Done(UploadError))
  }

  function PlanGet(c: Core, p: Proc, ch: Choice): (Effect, Proc)
    requires p.GetLookup? || p.GetRead?
  {
    match p
    case GetLookup(org, ref) =>
      (NoEffect, if ref in c.rows && ref.org == org && c.rows[ref].state.Available?
                 then GetRead(ref, c.rows[ref].hash) else Done(NotAvailable))
    case GetRead(ref, hash) =>
      (NoEffect, Done(if ch.fault || ref.key !in c.objects then StoreError
                      else if Sha256(c.objects[ref.key]) != hash then Corrupt
                      else Content(c.objects[ref.key])))
  }

  function PlanDeleteRequest(c: Core, p: Proc): (Effect, Proc)
    requires p.DeleteRequest?
  {
    if p.ref !in c.rows || p.ref.org != p.org then (NoEffect, Done(NotFound))
    else if c.rows[p.ref].legalHold then (NoEffect, Done(BlockedByHold))
    else if c.rows[p.ref].retainUntil.Some? && c.rows[p.ref].retainUntil.value > c.clock
    then (NoEffect, Done(BlockedByRetention))
    else (Request(p.ref), Done(Requested))
  }

  function PlanPurge(c: Core, p: Proc, ch: Choice): (Effect, Proc)
    requires p.Purging?
  {
    if p.work == [] then (NoEffect, Done(Purged(p.results)))
    else
      var ref := p.work[0].ref;
      match p.step
      case PurgeNext =>
        if p.work[0].seen.DeleteRequested?
        then (Mark(ref, DeleteRequested, LogicallyDeleted, None), p.(step := Pending))
        else (Mark(ref, LogicallyDeleted, PhysicalDeletePending, None), p.(step := RemoveObject))
      case Pending => (Mark(ref, LogicallyDeleted, PhysicalDeletePending, None), p.(step := RemoveObject))
      case RemoveObject =>
        if ch.fault then (if ch.applied then Remove(ref.key) else NoEffect, p.(step := PurgeFailed))
        else (Remove(ref.key), p.(step := Probe))
      case Probe =>
        (NoEffect, p.(step := if ch.fault || ref.key in c.objects then PurgeFailed else Confirm))
      case Confirm =>
        if ch.fault then (NoEffect, p.(step := PurgeFailed))
        else (Mark(ref, PhysicalDeletePending, PhysicallyConfirmed, None),
              Purging(PurgeNext, p.work[1..], p.results + [(ref, PhysicallyConfirmed)]))
      case PurgeFailed =>
        (Mark(ref, PhysicalDeletePending, DeleteFailed, None),
         Purging(PurgeNext, p.work[1..], p.results + [(ref, DeleteFailed)]))
  }

  function PlanRepair(c: Core, p: Proc, ch: Choice): (Effect, Proc)
    requires p.Repairing?
  {
    if p.work == [] then (NoEffect, Done(Repaired(p.report)))
    else
      var ref, rest := p.work[0].ref, p.work[1..];
      match p.stage
      case RepairNext =>
        (NoEffect,
         if ch.fault then Done(StoreError)
         else if p.work[0].seen.PendingUpload?
         then p.(stage := if ref.key in c.objects then VerifyObject else Reject)
         else if p.work[0].seen.Available? && ref.key !in c.objects then p.(stage := Orphan)
         else p.(work := rest))
      case VerifyObject =>
        (NoEffect, p.(stage := if !ch.fault && ref in c.rows && Verifies(c, ref.key, c.rows[ref].hash)
                               then Recover else Reject))
      case Recover =>
        (Mark(ref, PendingUpload, Available, None),
         Repairing(RepairNext, rest, p.report.(recovered := p.report.recovered + [ref])))
      case Reject =>
        (Mark(ref, PendingUpload, UploadFailed, None),
         Repairing(RepairNext, rest, p.report.(failed := p.report.failed + [ref])))
      case Orphan =>
        (Mark(ref, Available, DeleteFailed, None),
         Repairing(RepairNext, rest, p.report.(orphans := p.report.orphans + [ref])))
  }

  /** One atomic step of an operation: what it does to the core, and where it stands afterwards. */
  function Plan(c: Core, p: Proc, ch: Choice): (Effect, Proc) {
    match p
    case Putting(_, _, _, _, _) => PlanPut(c, p, ch)
    case GetLookup(_, _) => PlanGet(c, p, ch)
    case GetRead(_, _) => PlanGet(c, p, ch)
    case DeleteRequest(_, _) => PlanDeleteRequest(c, p)
    case PurgeSelect(org, scan) => (NoEffect, Purging(PurgeNext, PurgeWork(c, org, scan), []))
    case Purging(_, _, _) => PlanPurge(c, p, ch)
    case RepairSelect(org, scan) => (NoEffect, Repairing(RepairNext, RepairWork(c, org, scan), Report([], [], [])))
    case Repairing(_, _, _) => PlanRepair(c, p, ch)
    case Done(_) => (NoEffect, p)
  }

  datatype State = State(core: Core, procs: map<nat, Proc>)

  datatype Action =
    | Spawn(pid: nat, op: Op)
    | Step(pid: nat, choice: Choice)
    | Crash(pid: nat)
    | Tick(time: nat)

  const INITIAL := State(Core(map[], map[], [], 0), map[])

  /** One action of a run; an action that is not enabled changes nothing. */
  function Next(s: State, a: Action): State {
    match a
    case Spawn(pid, op) => if pid in s.procs then s else s.(procs := s.procs[pid := Start(op)])
    case Step(pid, choice) =>
      if pid !in s.procs then s
      else var (e, p) := Plan(s.core, s.procs[pid], choice); State(Apply(s.core, e), s.procs[pid := p])
    case Crash(pid) => s.(procs := s.procs - {pid})
    case Tick(time) => if time < s.core.clock then s else s.(core := s.core.(clock := time))
  }

  /** The state after a run: actions are taken in order. */
  function Run(s: State, acts: seq<Action>): State {
    if acts == [] then s else Next(Run(s, acts[..|acts| - 1]), acts[|acts| - 1])
  }
}
