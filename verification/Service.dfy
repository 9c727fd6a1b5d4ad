/** The artifact service: each operation as the source runs it, transaction by transaction and store
    call by store call, with nothing else going on and no store call failing. Every operation is shown
    to take exactly the steps the protocol prescribes. */
module Service {
  import opened Records
  import opened Protocol
  import opened Integrity
  import opened Reconciliation
  import opened Iteration
  import opened Solo
  import opened Store
  import opened Sequences

  class ArtifactService {
    const store: LocalArtifactStore
    var rows: map<Ref, Row>
    var audit: seq<Event>
    var clock: nat

    constructor (store: LocalArtifactStore, clock: nat)
      ensures this.store == store && rows == map[] && audit == [] && this.clock == clock
    {
      this.store := store;
      this.clock := clock;
      rows, audit := map[], [];
    }

    /** The rows, the objects, the audit and the clock as one value. */
    function Now(): Core
      reads this, store
    {
      Core(rows, store.objects, audit, clock)
    }

    /** One transaction: the unconditional update of a row, and its audit event. */
    method Transition(ref: Ref, prior: LifeState, next: LifeState, size: Option<nat>)
      modifies this
      ensures Now() == Apply(old(Now()), Mark(ref, prior, next, size))
    {
      if ref in rows { rows := rows[ref := Update(rows[ref], next, size)]; }
      audit := audit + [Event(ref, prior, next)];
    }

    /** Stores `data`. The upload takes the steps of the protocol. An AVAILABLE row whose object is as long as the
        data and has its digest is returned as it is, and one whose object is not is taken out of service; anything
        else is uploaded, which fails exactly when the key holds something else. */
    method Put(org: nat, class_: string, data: Bytes, hold: bool, retain: Option<nat>, job: Option<nat>)
      returns (out: Outcome)
      modifies this, store
      ensures RunsTo(Config(old(Now()), Start(OpPut(org, class_, data, hold, retain, job))), Config(Now(), Done(out)))
      ensures class_ !in ARTIFACT_CLASSES ==> out == UnknownClass && Now() == old(Now())
      ensures class_ in ARTIFACT_CLASSES ==>
                var ref := Ref(org, Key(org, class_, Sha256(data), job));
                var objects, row := old(store.objects), RowFor(old(rows), ref, data, hold, retain);
                var good := ref.key in objects && |objects[ref.key]| == |data| && Sha256(objects[ref.key]) == Sha256(data);
                if ref in old(rows) && old(rows)[ref].state.Available? then
                  store.objects == objects
                  && if good then out == Stored(ref) && Now() == old(Now())
                     else out == Corrupt && rows == old(rows)[ref := row.(state := DeleteFailed)]
                          && audit == old(audit) + [Event(ref, Available, DeleteFailed)]
                else if ref.key !in objects || good then
                  out == Stored(ref) && store.objects == (if good then objects else objects[ref.key := data])
                  && rows == old(rows)[ref := row.(state := Available, byteSize := Some(|data|))]
                  && audit == old(audit) + [Event(ref, PendingUpload, Available)]
                else
                  out == UploadError && store.objects == objects && rows == old(rows)[ref := row.(state := UploadFailed)]
                  && audit == old(audit) + [Event(ref, PendingUpload, UploadFailed)]
    {
      if class_ !in ARTIFACT_CLASSES {
        ReachesSelf(Move, Config(Now(), Done(UnknownClass)));
        return UnknownClass;
      }
      var ref := Ref(org, Key(org, class_, Sha256(data), job));
      ghost var x := Config(Now(), Putting(Lookup, ref, data, hold, retain));
      ReachesSelf(Move, x);
      ReachesNext(Move, x, x);
      ghost var y := Move(x);
      if ref in rows && rows[ref].state.Available? {
        out := CheckExisting(ref, data, hold, retain);
      } else {
        out := Upload(ref, data, hold, retain);
      }
      ReachesTrans(Move, x, y, Config(Now(), Done(out)));
    }

    /** The row of an artifact, or the one an upload inserts: pending, with the caller's hold and retention. */
    static function RowFor(rows: map<Ref, Row>, ref: Ref, data: Bytes, hold: bool, retain: Option<nat>): (row: Row)
      ensures ref in rows ==> row == rows[ref]
      ensures ref !in rows ==> row.hash == ref.key.hash && row.byteSize.None? && row.state.PendingUpload?
                               && row.legalHold == hold && row.retainUntil == retain
    {
      if ref in rows then rows[ref] else Row(ref.key.hash, None, PendingUpload, hold, retain)
    }

    /** The idempotent path: an AVAILABLE row is returned only once its object is verified. */
    method CheckExisting(ref: Ref, data: Bytes, hold: bool, retain: Option<nat>) returns (out: Outcome)
      requires ref in rows && rows[ref].state.Available?
      modifies this
      ensures RunsTo(Config(old(Now()), Putting(CheckHead, ref, data, hold, retain)), Config(Now(), Done(out)))
      ensures out == Stored(ref) || out == Corrupt
      ensures out == Stored(ref) <==> HeadFits(old(Now()), ref.key, data) && Verifies(old(Now()), ref.key, Sha256(data))
      ensures out == Stored(ref) ==> Now() == old(Now())
      ensures out == Corrupt ==> rows == old(rows)[ref := old(rows)[ref].(state := DeleteFailed)]
                                 && audit == old(audit) + [Event(ref, Available, DeleteFailed)]
    {
      ghost var x := Config(Now(), Putting(CheckHead, ref, data, hold, retain));
      ReachesSelf(Move, x);
      ReachesNext(Move, x, x);
      var head := store.Head(ref.key);
      var ok := head.Some? && head.value == |data|;
      if ok {
        ReachesNext(Move, x, Move(x));
        ok := store.Verify(ref.key, Sha256(data));
      }
      if ok { return Stored(ref); }
      ghost var y := Config(Now(), Putting(CheckFail, ref, data, hold, retain));
      assert RunsTo(x, y);
      ReachesNext(Move, x, y);
      Transition(ref, Available, DeleteFailed, None);
      return Corrupt;
    }

    /** Inserts the row if it is new, writes the object, checks it, and commits or records the failure. */
    method Upload(ref: Ref, data: Bytes, hold: bool, retain: Option<nat>) returns (out: Outcome)
      requires !(ref in rows && rows[ref].state.Available?)
      modifies this, store
      ensures RunsTo(Config(old(Now()), Putting(InsertRow, ref, data, hold, retain)), Config(Now(), Done(out)))
      ensures Uploaded(old(rows)[ref := RowFor(old(rows), ref, data, hold, retain)], old(store.objects), old(audit), ref,
                       data, out)
    {
      ghost var x := Config(Now(), Putting(InsertRow, ref, data, hold, retain));
      ReachesSelf(Move, x);
      ReachesNext(Move, x, x);
      if ref !in rows { rows := rows[ref := Row(ref.key.hash, None, PendingUpload, hold, retain)]; }
      ghost var y := Config(Now(), Putting(WriteObject, ref, data, hold, retain));
      assert RunsTo(x, y);
      out := WriteAndCheck(ref, data, hold, retain);
      ReachesTrans(Move, x, y, Config(Now(), Done(out)));
    }

    /** What an upload into these rows and objects leaves: it fails exactly when the key holds something else. */
    ghost predicate Uploaded(rows0: map<Ref, Row>, objects0: map<Key, Bytes>, audit0: seq<Event>, ref: Ref, data: Bytes,
                             out: Outcome)
      requires ref in rows0
      reads this, store
    {
      var good := ref.key in objects0 && |objects0[ref.key]| == |data| && Sha256(objects0[ref.key]) == Sha256(data);
      if ref.key !in objects0 || good then
        out == Stored(ref) && store.objects == (if good then objects0 else objects0[ref.key := data])
        && rows == rows0[ref := rows0[ref].(state := Available, byteSize := Some(|data|))]
        && audit == audit0 + [Event(ref, PendingUpload, Available)]
      else
        out == UploadError && store.objects == objects0 && rows == rows0[ref := rows0[ref].(state := UploadFailed)]
        && audit == audit0 + [Event(ref, PendingUpload, UploadFailed)]
    }

    method WriteAndCheck(ref: Ref, data: Bytes, hold: bool, retain: Option<nat>) returns (out: Outcome)
      requires ref in rows
      modifies this, store
      ensures RunsTo(Config(old(Now()), Putting(WriteObject, ref, data, hold, retain)), Config(Now(), Done(out)))
      ensures Uploaded(old(rows), old(store.objects), old(audit), ref, data, out)
    {
      ghost var x := Config(Now(), Putting(WriteObject, ref, data, hold, retain));
      ReachesSelf(Move, x);
      ReachesNext(Move, x, x);
      var written := store.Put(ref.key, data, Sha256(data));
      var ok := written.Written?;
      if ok { ok := CheckWritten(ref, data, hold, retain); }
      ghost var y := Config(Now(), Putting(if ok then Commit else Failed, ref, data, hold, retain));
      if written.Written? { ReachesTrans(Move, x, Config(Now(), Putting(Head, ref, data, hold, retain)), y); }
      out := Finish(ref, data, hold, retain, ok);
      ReachesTrans(Move, x, y, Config(Now(), Done(out)));
    }

    /** The closing transaction of an upload. */
    method Finish(ref: Ref, data: Bytes, hold: bool, retain: Option<nat>, ok: bool) returns (out: Outcome)
      requires ref in rows
      modifies this
      ensures RunsTo(Config(old(Now()), Putting(if ok then Commit else Failed, ref, data, hold, retain)),
                     Config(Now(), Done(out)))
      ensures out == if ok then Stored(ref) else UploadError
      ensures store.objects == old(store.objects)
      ensures audit == old(audit) + [Event(ref, PendingUpload, if ok then Available else UploadFailed)]
      ensures var row := old(rows)[ref];
              rows == old(rows)[ref := if ok then row.(state := Available, byteSize := Some(|data|))
                                       else row.(state := UploadFailed)]
    {
      ghost var x := Config(Now(), Putting(if ok then Commit else Failed, ref, data, hold, retain));
      ReachesSelf(Move, x);
      ReachesNext(Move, x, x);
      if ok { Transition(ref, PendingUpload, Available, Some(|data|)); }
      else { Transition(ref, PendingUpload, UploadFailed, None); }
      out := if ok then Stored(ref) else UploadError;
    }

    /** Size and digest of the object just written. */
    method CheckWritten(ref: Ref, data: Bytes, hold: bool, retain: Option<nat>) returns (ok: bool)
      ensures ok <==> HeadFits(Now(), ref.key, data) && Verifies(Now(), ref.key, Sha256(data))
      ensures RunsTo(Config(Now(), Putting(Head, ref, data, hold, retain)),
                     Config(Now(), Putting(if ok then Commit else Failed, ref, data, hold, retain)))
    {
      ghost var x := Config(Now(), Putting(Head, ref, data, hold, retain));
      ReachesSelf(Move, x);
      ReachesNext(Move, x, x);
      var head := store.Head(ref.key);
      if head.None? || head.value != |data| { return false; }
      ReachesNext(Move, x, Move(x));
      ok := store.Verify(ref.key, Sha256(data));
    }

    /** Serves the bytes of an AVAILABLE row of the caller's tenant. */
    method Get(org: nat, ref: Ref) returns (out: Outcome)
      ensures RunsTo(Config(Now(), Start(OpGet(org, ref))), Config(Now(), Done(out)))
      ensures out == if !(ref in rows && ref.org == org && rows[ref].state.Available?) then NotAvailable
                     else if ref.key !in store.objects then StoreError
                     else if Sha256(store.objects[ref.key]) != rows[ref].hash then Corrupt
                     else Content(store.objects[ref.key])
      ensures out.Content? ==> ref in rows && Sha256(out.data) == rows[ref].hash
      ensures CoreOk(Now()) && Served(Now()) ==> out.NotAvailable? || out.Content?
    {
      ghost var x := Config(Now(), GetLookup(org, ref));
      ReachesSelf(Move, x);
      ReachesNext(Move, x, x);
      if !(ref in rows && ref.org == org && rows[ref].state.Available?) { return NotAvailable; }
      ReachesNext(Move, x, Move(x));
      assert CoreOk(Now()) ==> RowOk(Now(), ref);
      var data := store.Get(ref.key);
      if data.None? { return StoreError; }
      if Sha256(data.value) != rows[ref].hash { return Corrupt; }
      return Content(data.value);
    }

    /** Requests the deletion of an artifact, unless legal hold or retention forbids it. */
    method RequestDelete(org: nat, ref: Ref) returns (out: Outcome)
      modifies this
      ensures RunsTo(Config(old(Now()), Start(OpRequestDelete(org, ref))), Config(Now(), Done(out)))
      ensures clock == old(clock) && store.objects == old(store.objects)
      ensures if !(ref in old(rows) && ref.org == org) then out == NotFound
              else if old(rows)[ref].legalHold then out == BlockedByHold
              else if old(rows)[ref].retainUntil.Some? && old(rows)[ref].retainUntil.value > clock
              then out == BlockedByRetention
              else out == Requested
      ensures !out.Requested? ==> rows == old(rows) && audit == old(audit)
      ensures out.Requested? ==>
                && audit == old(audit) + [Event(ref, Available, DeleteRequested)]
                && rows == if old(rows)[ref].state.Available?
                           then old(rows)[ref := old(rows)[ref].(state := DeleteRequested)] else old(rows)
    {
      ghost var x := Config(Now(), DeleteRequest(org, ref));
      ReachesSelf(Move, x);
      ReachesNext(Move, x, x);
      if ref !in rows || ref.org != org { return NotFound; }
      if rows[ref].legalHold { return BlockedByHold; }
      if rows[ref].retainUntil.Some? && rows[ref].retainUntil.value > clock { return BlockedByRetention; }
      if rows[ref].state.Available? { rows := rows[ref := Update(rows[ref], DeleteRequested, None)]; }
      audit := audit + [Event(ref, Available, DeleteRequested)];
      return Requested;
    }

    /** One selected row through the deletion lifecycle. */
    method Purge(it: Item) returns (state: LifeState)
      modifies this, store
      ensures Now() == PurgeOne(old(Now()), it) && state.PhysicallyConfirmed?
    {
      if it.seen.DeleteRequested? { Transition(it.ref, DeleteRequested, LogicallyDeleted, None); }
      Transition(it.ref, LogicallyDeleted, PhysicalDeletePending, None);
      store.Delete(it.ref.key);
      var present := store.Exists(it.ref.key);
      state := if present then DeleteFailed else PhysicallyConfirmed;
      Transition(it.ref, PhysicalDeletePending, state, None);
    }

    /** The selected rows, one after another. */
    method PurgeEach(work: seq<Item>) returns (results: seq<(Ref, LifeState)>)
      modifies this, store
      ensures Now() == PurgeAll(old(Now()), work) && results == Confirmations(work)
    {
      results := [];
      for i := 0 to |work|
        invariant PurgeAll(Now(), work[i..]) == PurgeAll(old(Now()), work)
        invariant results == Confirmations(work)[..i]
      {
        var state := Purge(work[i]);
        results := results + [(work[i].ref, state)];
        assert work[i..][1..] == work[i + 1..];
      }
    }

    /** Deletes the objects of all erasable rows whose deletion was requested. */
    method RunPhysicalDeletions(org: nat, scan: seq<Ref>)
      returns (results: seq<(Ref, LifeState)>, ghost trail: seq<seq<Event>>)
      modifies this, store
      ensures RunsTo(Config(old(Now()), Start(OpPurge(org, scan))), Config(Now(), Done(Purged(results))))
      ensures var work := PurgeWork(old(Now()), org, scan);
              Now() == PurgeAll(old(Now()), work) && results == Confirmations(work)
      ensures var chosen := set r | r in scan && r in old(rows) && r.org == org
                  && (old(rows)[r].state.DeleteRequested? || old(rows)[r].state.LogicallyDeleted?)
                  && !old(rows)[r].legalHold
                  && (old(rows)[r].retainUntil.None? || old(rows)[r].retainUntil.value <= clock);
              && rows == (map r | r in old(rows) :: if r in chosen then old(rows)[r].(state := PhysicallyConfirmed)
                                                    else old(rows)[r])
              && store.objects == (map k | k in old(store.objects) && (forall r <- chosen :: r.key != k)
                                   :: old(store.objects)[k])
              && (forall res <- results :: res.0 in chosen && res.1.PhysicallyConfirmed?)
              && (forall r <- chosen :: (r, PhysicallyConfirmed) in results)
      ensures |trail| == |scan| && audit == old(audit) + Concat(trail)
      ensures forall i :: 0 <= i < |scan| ==>
                var r := scan[i];
                trail[i] == if r !in old(rows) || r !in rows || rows[r] == old(rows)[r] then []
                            else if old(rows)[r].state.DeleteRequested? then
                              [Event(r, DeleteRequested, LogicallyDeleted),
                               Event(r, LogicallyDeleted, PhysicalDeletePending),
                               Event(r, PhysicalDeletePending, PhysicallyConfirmed)]
                            else
                              [Event(r, LogicallyDeleted, PhysicalDeletePending),
                               Event(r, PhysicalDeletePending, PhysicallyConfirmed)]
    {
      ghost var before := Now();
      results := PurgeEach(PurgeWork(Now(), org, scan));
      PurgeRunRefines(before, org, scan);
      PurgeScanOutcome(before, org, scan);
      PurgeScanResults(before, org, scan);
      ghost var chosen := set r | r in scan && r in old(rows) && r.org == org
                            && (old(rows)[r].state.DeleteRequested? || old(rows)[r].state.LogicallyDeleted?)
                            && !old(rows)[r].legalHold
                            && (old(rows)[r].retainUntil.None? || old(rows)[r].retainUntil.value <= clock);
      trail := PurgeTrailByRows(before, org, scan);
      assert chosen == Chosen(before, org, scan);
    }

    /** One selected row: an upload that was interrupted is completed or failed, a served row without its
        object is taken out of service. */
    method RepairRow(it: Item, report: Report) returns (report': Report)
      modifies this
      ensures Now() == RepairOne(old(Now()), it) && report' == TallyOne(old(Now()), it, report)
    {
      report' := report;
      var exists_ := store.Exists(it.ref.key);
      if it.seen.PendingUpload? {
        var ok := exists_ && it.ref in rows;
        if ok { ok := store.Verify(it.ref.key, rows[it.ref].hash); }
        if ok {
          Transition(it.ref, PendingUpload, Available, None);
          report' := report.(recovered := report.recovered + [it.ref]);
        } else {
          Transition(it.ref, PendingUpload, UploadFailed, None);
          report' := report.(failed := report.failed + [it.ref]);
        }
      } else if it.seen.Available? && !exists_ {
        Transition(it.ref, Available, DeleteFailed, None);
        report' := report.(orphans := report.orphans + [it.ref]);
      }
    }

    /** The selected rows, one after another. */
    method RepairEach(work: seq<Item>) returns (report: Report)
      modifies this
      ensures Now() == RepairAll(old(Now()), work) && report == Tally(old(Now()), work, Report([], [], []))
    {
      report := Report([], [], []);
      for i := 0 to |work|
        invariant RepairAll(Now(), work[i..]) == RepairAll(old(Now()), work)
        invariant Tally(Now(), work[i..], report) == Tally(old(Now()), work, Report([], [], []))
      {
        assert work[i..][1..] == work[i + 1..];
        RepairOneKeepsTally(Now(), work[i], work[i + 1..], TallyOne(Now(), work[i], report));
        report := RepairRow(work[i], report);
      }
    }

    /** The explicit repair. `scan` is the order in which the database returns the tenant's rows. */
    method Repair(org: nat, scan: seq<Ref>) returns (report: Report, ghost trail: seq<seq<Event>>)
      requires Covers(Now(), org, scan)
      modifies this
      ensures RunsTo(Config(old(Now()), Start(OpRepair(org, scan))), Config(Now(), Done(Repaired(report))))
      ensures Now() == RepairAll(old(Now()), RepairWork(old(Now()), org, scan))
      ensures report == Tally(old(Now()), RepairWork(old(Now()), org, scan), Report([], [], []))
      ensures store.objects == old(store.objects)
      ensures rows.Keys == old(rows).Keys
      ensures forall r <- rows ::
                var row := old(rows)[r];
                var intact := r.key in store.objects && Sha256(store.objects[r.key]) == row.hash;
                rows[r] == if r.org != org then row
                           else if row.state.PendingUpload? then row.(state := if intact then Available else UploadFailed)
                           else if row.state.Available? && r.key !in store.objects then row.(state := DeleteFailed)
                           else row
      ensures |trail| == |scan| && audit == old(audit) + Concat(trail)
      ensures forall i :: 0 <= i < |scan| ==>
                var r := scan[i];
                trail[i] == if r !in old(rows) || r !in rows || rows[r].state == old(rows)[r].state then []
                            else [Event(r, old(rows)[r].state, rows[r].state)]
      ensures forall r :: r in report.recovered <==>
                r in old(rows) && r.org == org && old(rows)[r].state.PendingUpload? && rows[r].state.Available?
      ensures forall r :: r in report.failed <==>
                r in old(rows) && r.org == org && old(rows)[r].state.PendingUpload? && rows[r].state.UploadFailed?
      ensures forall r :: r in report.orphans <==>
                r in old(rows) && r.org == org && old(rows)[r].state.Available? && rows[r].state.DeleteFailed?
    {
      ghost var before := Now();
      report := RepairEach(RepairWork(Now(), org, scan));
      RepairRunRefines(before, org, scan);
      RepairOutcome(before, org, scan);
      RepairReports(before, org, scan);
      trail := RepairTrailByRows(before, org, scan);
    }

    /** The three lists name the repaired rows. */
    static lemma RepairReports(c: Core, org: nat, scan: seq<Ref>)
      requires Covers(c, org, scan)
      ensures var report := Tally(c, RepairWork(c, org, scan), Report([], [], []));
              forall r ::
                && (r in report.recovered <==> r in c.rows && r.org == org && c.rows[r].state.PendingUpload?
                                               && Verifies(c, r.key, c.rows[r].hash))
                && (r in report.failed <==> r in c.rows && r.org == org && c.rows[r].state.PendingUpload?
                                            && !Verifies(c, r.key, c.rows[r].hash))
                && (r in report.orphans <==> r in c.rows && r.org == org && c.rows[r].state.Available?
                                             && r.key !in c.objects)
    {
      var work := RepairWork(c, org, scan);
      RepairWorkRepairable(c, org, scan);
      forall r { TallyLists(c, work, Report([], [], []), r); }
      forall r | Repairable(c, org, r) ensures Item(r, c.rows[r].state) in work {
      }
    }

    static lemma {:induction false} TallyLists(c: Core, work: seq<Item>, report: Report, r: Ref)
      ensures var t := Tally(c, work, report);
              && (r in t.recovered <==> r in report.recovered || exists it <- work :: it.ref == r && Judge(c, it).Recovers?)
              && (r in t.failed <==> r in report.failed || exists it <- work :: it.ref == r && Judge(c, it).FailsUpload?)
              && (r in t.orphans <==> r in report.orphans || exists it <- work :: it.ref == r && Judge(c, it).IsOrphan?)
      decreases |work|
    {
      if work != [] {
        TallyLists(c, work[1..], TallyOne(c, work[0], report), r);
        assert work[0] in work && forall it <- work[1..] :: it in work;
        assert forall it <- work :: it == work[0] || it in work[1..];
      }
    }

    static lemma RepairRunRefines(c: Core, org: nat, scan: seq<Ref>)
      ensures var work := RepairWork(c, org, scan);
              RunsTo(Config(c, RepairSelect(org, scan)),
                     Config(RepairAll(c, work), Done(Repaired(Tally(c, work, Report([], [], []))))))
    {
      var work, none := RepairWork(c, org, scan), Report([], [], []);
      var x, y := Config(c, RepairSelect(org, scan)), Config(c, Repairing(RepairNext, work, none));
      ReachesSelf(Move, x);
      ReachesNext(Move, x, x);
      RepairAllRuns(c, work, none);
      ReachesTrans(Move, x, y, Config(RepairAll(c, work), Done(Repaired(Tally(c, work, none)))));
    }

    /** Compares rows and store, changing neither. `scan` lists the tenant's rows. */
    method Reconcile(org: nat, scan: seq<Ref>) returns (f: Findings, hasDrift: bool)
      requires forall r :: r in scan <==> r in rows && r.org == org
      ensures f.Reports(DriftOf(Now(), org))
      ensures forall r :: r in f.rowMissingObject <==>
                r in rows && r.org == org && r.key.org == org && rows[r].state.Available? && r.key !in store.objects
      ensures forall k :: k in f.objectMissingRow <==> k in store.objects && k.org == org && Ref(org, k) !in rows
      ensures forall r :: r in f.corrupted <==>
                r in rows && r.org == org && r.key.org == org && rows[r].state.Available? && r.key in store.objects
                && Sha256(store.objects[r.key]) != rows[r].hash
      ensures forall r :: r in f.pendingWithObject <==>
                r in rows && r.org == org && r.key.org == org && rows[r].state.PendingUpload? && r.key in store.objects
      ensures forall r :: r in f.confirmedReappeared <==>
                r in rows && r.org == org && r.key.org == org && rows[r].state.PhysicallyConfirmed?
                && r.key in store.objects
      ensures forall r :: r in f.wrongPrefix <==> r in rows && r.org == org && r.key.org != org
      ensures hasDrift <==>
                || (exists k :: k in store.objects && k.org == org && Ref(org, k) !in rows)
                || exists r :: r in rows && r.org == org &&
                     (|| r.key.org != org
                      || (rows[r].state.Available?
                          && (r.key !in store.objects || Sha256(store.objects[r.key]) != rows[r].hash))
                      || ((rows[r].state.PendingUpload? || rows[r].state.PhysicallyConfirmed?) && r.key in store.objects))
    {
      f := Findings([], [], [], [], [], []);
      var keys := store.ListKeys((k: Key) => k.org == org);
      assert forall k :: k in keys <==> k in store.objects && k.org == org;
      for i := 0 to |scan|
        invariant f.objectMissingRow == []
        invariant FoundIn(Now(), org, scan[..i], f)
      {
        var r := scan[i];
        assert scan[..i + 1] == scan[..i] + [r] && r in scan;
        ghost var f0 := f;
        if r.key.org != org { f := f.(wrongPrefix := f.wrongPrefix + [r]); }
        else {
          var exists_ := r.key in keys;
          if rows[r].state.Available? && !exists_ {
            f := f.(rowMissingObject := f.rowMissingObject + [r]);
          } else if rows[r].state.Available? {
            var ok := store.Verify(r.key, rows[r].hash);
            if !ok { f := f.(corrupted := f.corrupted + [r]); }
          } else if rows[r].state.PendingUpload? && exists_ {
            f := f.(pendingWithObject := f.pendingWithObject + [r]);
          } else if rows[r].state.PhysicallyConfirmed? && exists_ {
            f := f.(confirmedReappeared := f.confirmedReappeared + [r]);
          }
        }
        FoundStep(Now(), org, scan[..i], r, f0, f);
      }
      assert scan[..|scan|] == scan;
      ghost var f1 := f;
      for i := 0 to |keys|
        invariant f == f1.(objectMissingRow := f.objectMissingRow)
        invariant forall k :: k in f.objectMissingRow <==> k in keys[..i] && Ref(org, k) !in rows
      {
        if Ref(org, keys[i]) !in rows { f := f.(objectMissingRow := f.objectMissingRow + [keys[i]]); }
      }
      assert keys[..|keys|] == keys;
      FoundAll(Now(), org, scan, f1, f);
      hasDrift := f != Findings([], [], [], [], [], []);
      ReportsEmptyIff(f, DriftOf(Now(), org));
      DriftIff(Now(), org);
    }

    /** When there is drift. */
    static lemma DriftIff(c: Core, org: nat)
      ensures !DriftOf(c, org).Empty?() <==>
                || (exists k :: k in c.objects && k.org == org && Ref(org, k) !in c.rows)
                || exists r :: r in c.rows && r.org == org &&
                     (|| r.key.org != org
                      || (c.rows[r].state.Available? && (r.key !in c.objects || Sha256(c.objects[r.key]) != c.rows[r].hash))
                      || ((c.rows[r].state.PendingUpload? || c.rows[r].state.PhysicallyConfirmed?) && r.key in c.objects))
    {
      var d := DriftOf(c, org);
      if k :| k in c.objects && k.org == org && Ref(org, k) !in c.rows { assert k in d.objectMissingRow; }
      if r :| r in c.rows && r.org == org &&
              (|| r.key.org != org
               || (c.rows[r].state.Available? && (r.key !in c.objects || Sha256(c.objects[r.key]) != c.rows[r].hash))
               || ((c.rows[r].state.PendingUpload? || c.rows[r].state.PhysicallyConfirmed?) && r.key in c.objects))
      {
        assert r in d.wrongPrefix || r in d.rowMissingObject || r in d.corrupted || r in d.pendingWithObject
               || r in d.confirmedReappeared;
      }
      if !d.Empty?() {
        if k :| k in d.objectMissingRow { assert k in c.objects && k.org == org && Ref(org, k) !in c.rows; }
        if r :| r in d.wrongPrefix || r in d.rowMissingObject || r in d.corrupted || r in d.pendingWithObject
                || r in d.confirmedReappeared { assert r in c.rows && r.org == org; }
      }
    }
  }

  /** The lists reconciliation returns. */
  datatype Findings = Findings(
    rowMissingObject: seq<Ref>, objectMissingRow: seq<Key>, corrupted: seq<Ref>,
    pendingWithObject: seq<Ref>, confirmedReappeared: seq<Ref>, wrongPrefix: seq<Ref>)
  {
    /** Each list holds exactly the members of the corresponding set of disagreements. */
    ghost predicate Reports(d: Drift) {
      && (forall r :: r in rowMissingObject <==> r in d.rowMissingObject)
      && (forall k :: k in objectMissingRow <==> k in d.objectMissingRow)
      && (forall r :: r in corrupted <==> r in d.corrupted)
      && (forall r :: r in pendingWithObject <==> r in d.pendingWithObject)
      && (forall r :: r in confirmedReappeared <==> r in d.confirmedReappeared)
      && (forall r :: r in wrongPrefix <==> r in d.wrongPrefix)
    }
  }

  /** Of the rows seen so far, each is listed where it belongs and nowhere else. */
  ghost predicate FoundIn(c: Core, org: nat, seen: seq<Ref>, f: Findings) {
    var d := DriftOf(c, org);
    && (forall r :: r in f.rowMissingObject <==> r in seen && r in d.rowMissingObject)
    && (forall r :: r in f.corrupted <==> r in seen && r in d.corrupted)
    && (forall r :: r in f.pendingWithObject <==> r in seen && r in d.pendingWithObject)
    && (forall r :: r in f.confirmedReappeared <==> r in seen && r in d.confirmedReappeared)
    && (forall r :: r in f.wrongPrefix <==> r in seen && r in d.wrongPrefix)
  }

  /** How one row is listed. */
  function List(c: Core, org: nat, r: Ref, f: Findings): Findings
    requires r in c.rows
  {
    var state, present := c.rows[r].state, r.key in c.objects;
    if r.key.org != org then f.(wrongPrefix := f.wrongPrefix + [r])
    else if state.Available? && !present then f.(rowMissingObject := f.rowMissingObject + [r])
    else if state.Available? && !Verifies(c, r.key, c.rows[r].hash) then f.(corrupted := f.corrupted + [r])
    else if state.PendingUpload? && present then f.(pendingWithObject := f.pendingWithObject + [r])
    else if state.PhysicallyConfirmed? && present then f.(confirmedReappeared := f.confirmedReappeared + [r])
    else f
  }

  lemma FoundStep(c: Core, org: nat, seen: seq<Ref>, r: Ref, f: Findings, f': Findings)
    requires r in c.rows && r.org == org && FoundIn(c, org, seen, f) && f' == List(c, org, r, f)
    ensures FoundIn(c, org, seen + [r], f')
  {
  }

  lemma FoundAll(c: Core, org: nat, scan: seq<Ref>, f: Findings, f': Findings)
    requires FoundIn(c, org, scan, f) && f' == f.(objectMissingRow := f'.objectMissingRow)
    requires forall r :: r in scan <==> r in c.rows && r.org == org
    requires forall k :: k in f'.objectMissingRow <==> k in c.objects && k.org == org && Ref(org, k) !in c.rows
    ensures f'.Reports(DriftOf(c, org))
  {
  }

  lemma ReportsEmptyIff(f: Findings, d: Drift)
    requires f.Reports(d)
    ensures f == Findings([], [], [], [], [], []) <==> d.Empty?()
  {
    EmptyIff(f.rowMissingObject, d.rowMissingObject);
    EmptyIff(f.objectMissingRow, d.objectMissingRow);
    EmptyIff(f.corrupted, d.corrupted);
    EmptyIff(f.pendingWithObject, d.pendingWithObject);
    EmptyIff(f.confirmedReappeared, d.confirmedReappeared);
    EmptyIff(f.wrongPrefix, d.wrongPrefix);
  }

  lemma EmptyIff<T>(xs: seq<T>, s: set<T>)
    requires forall x :: x in xs <==> x in s
    ensures xs == [] <==> s == {}
  {
    if xs != [] { assert xs[0] in s; }
    if s != {} { var x :| x in s; assert x in xs; }
  }
}
