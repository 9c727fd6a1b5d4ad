/** Reconciliation: where the rows and the store can disagree, and which disagreements a run can leave. */
module Reconciliation {
  import opened Records
  import opened Protocol
  import opened Integrity

  /** The six ways rows and store can disagree about one tenant. */
  datatype Drift = Drift(
    rowMissingObject: set<Ref>, objectMissingRow: set<Key>, corrupted: set<Ref>,
    pendingWithObject: set<Ref>, confirmedReappeared: set<Ref>, wrongPrefix: set<Ref>)
  {
    predicate Empty?() {
      rowMissingObject == {} && objectMissingRow == {} && corrupted == {} && pendingWithObject == {}
      && confirmedReappeared == {} && wrongPrefix == {}
    }
  }

  function DriftOf(c: Core, org: nat): Drift {
    var mine := set r | r in c.rows && r.org == org && r.key.org == org;
    Drift(set r | r in mine && c.rows[r].state.Available? && r.key !in c.objects,
          set k | k in c.objects && k.org == org && Ref(org, k) !in c.rows,
          set r | r in mine && c.rows[r].state.Available? && r.key in c.objects
                  && Sha256(c.objects[r.key]) != c.rows[r].hash,
          set r | r in mine && c.rows[r].state.PendingUpload? && r.key in c.objects,
          set r | r in mine && c.rows[r].state.PhysicallyConfirmed? && r.key in c.objects,
          set r | r in c.rows && r.org == org && r.key.org != org)
  }

  /** In any run without overlap, crashes included, four of the six lists are always empty. */
  lemma OnlyTwoKindsOfDrift(acts: seq<Action>, org: nat)
    requires NeverOverlaps(INITIAL, acts)
    ensures var d := DriftOf(Run(INITIAL, acts).core, org);
            d.rowMissingObject == {} && d.objectMissingRow == {} && d.corrupted == {} && d.wrongPrefix == {}
  {
    RunSafe(INITIAL, acts);
    var c := Run(INITIAL, acts).core;
    forall r | r in c.rows ensures RowOk(c, r) {}
  }

  // ---------------------------------------------------------------- runs without a crash

  ghost predicate NoCrash(acts: seq<Action>) { forall i :: 0 <= i < |acts| ==> !acts[i].Crash? }

  /** An upload of `r` that has inserted its row and not yet ended. */
  ghost predicate Carries(p: Proc, r: Ref) {
    p.Putting? && p.ref == r && (p.at.WriteObject? || p.at.Head? || p.at.Verify? || p.at.Commit? || p.at.Failed?)
  }

  ghost predicate Carried(s: State, r: Ref) { exists i :: i in s.procs && Carries(s.procs[i], r) }

  /** The row is half-way through something only an upload can finish. */
  ghost predicate Unfinished(c: Core, r: Ref) {
    r in c.rows && (c.rows[r].state.PendingUpload? || (c.rows[r].state.PhysicallyConfirmed? && r.key in c.objects))
  }

  ghost predicate Tended(s: State) { forall r :: Unfinished(s.core, r) ==> Carried(s, r) }

  /** A step that makes `r` unfinished belongs to an upload carrying `r`; a step that ends an upload
      carrying `r` leaves `r` finished. */
  lemma {:induction false} StepTends(c: Core, p: Proc, ch: Choice, r: Ref)
    requires CoreOk(c) && ProcOk(c, p) && ProcSafe(c, p)
    requires var (e, p') := Plan(c, p, ch); Unfinished(Apply(c, e), r)
    ensures var (e, p') := Plan(c, p, ch); Carries(p', r) || (Unfinished(c, r) && !Carries(p, r))
  {
    PlanOk(c, p, ch);
    PlanSafe(c, p, ch);
    if p.Putting? { StepTendsPut(c, p, ch, r); }
    else { assert !Plan(c, p, ch).0.Write?; }
  }

  lemma {:induction false} StepTendsPut(c: Core, p: Proc, ch: Choice, r: Ref)
    requires CoreOk(c) && ProcOk(c, p) && p.Putting?
    requires Unfinished(Apply(c, PlanPut(c, p, ch).0), r)
    ensures Carries(PlanPut(c, p, ch).1, r) || (Unfinished(c, r) && !Carries(p, r))
  {
    if r == p.ref { PutTendsItsOwn(c, p, ch); } else { PutLeavesOthers(c, p, ch, r); }
  }

  lemma PutTendsItsOwn(c: Core, p: Proc, ch: Choice)
    requires p.Putting? && Unfinished(Apply(c, PlanPut(c, p, ch).0), p.ref)
    ensures Carries(PlanPut(c, p, ch).1, p.ref) || (Unfinished(c, p.ref) && !Carries(p, p.ref))
  {
  }

  lemma {:induction false} PutLeavesOthers(c: Core, p: Proc, ch: Choice, r: Ref)
    requires CoreOk(c) && ProcOk(c, p) && p.Putting? && r != p.ref
    requires Unfinished(Apply(c, PlanPut(c, p, ch).0), r)
    ensures Unfinished(c, r) && !Carries(p, r)
  {
    assert r in c.rows && RowOk(c, r) && r == Ref(r.key.org, r.key);
    assert p.ref == Ref(p.ref.key.org, p.ref.key);
  }

  lemma NextTends(s: State, a: Action)
    requires StateSafe(s) && Tended(s) && !a.Crash?
    ensures Tended(Next(s, a))
  {
    var s' := Next(s, a);
    forall r | Unfinished(s'.core, r) ensures Carried(s', r) {
      if a.Step? && a.pid in s.procs {
        StepTends(s.core, s.procs[a.pid], a.choice, r);
        if Carries(s'.procs[a.pid], r) {
        } else {
          var i :| i in s.procs && Carries(s.procs[i], r);
          assert i in s'.procs && Carries(s'.procs[i], r);
        }
      } else {
        assert Unfinished(s.core, r);
        var i :| i in s.procs && Carries(s.procs[i], r);
        assert i in s'.procs && Carries(s'.procs[i], r);
      }
    }
  }

  lemma {:induction false} RunTends(acts: seq<Action>)
    requires NeverOverlaps(INITIAL, acts) && NoCrash(acts)
    ensures Tended(Run(INITIAL, acts))
  {
    if acts != [] {
      var before := acts[..|acts| - 1];
      RunTends(before);
      RunSafe(INITIAL, before);
      NextTends(Run(INITIAL, before), acts[|acts| - 1]);
    }
  }

  /** Without a crash there is no drift at all: in a run without overlap and without crashes, store
      failures included, once every operation has ended reconciliation finds nothing. */
  lemma NoDriftWithoutCrash(acts: seq<Action>, org: nat)
    requires NeverOverlaps(INITIAL, acts) && NoCrash(acts)
    requires forall i :: i in Run(INITIAL, acts).procs ==> Run(INITIAL, acts).procs[i].Done?
    ensures DriftOf(Run(INITIAL, acts).core, org).Empty?()
  {
    RunTends(acts);
    OnlyTwoKindsOfDrift(acts, org);
    var s := Run(INITIAL, acts);
    forall r ensures !Unfinished(s.core, r) { assert !Carried(s, r); }
    var d := DriftOf(s.core, org);
    assert forall r <- d.pendingWithObject :: Unfinished(s.core, r);
    assert forall r <- d.confirmedReappeared :: Unfinished(s.core, r);
  }

  // ---------------------------------------------------------------- what crashes leave

  /** One more action of a run, with the state it leads to. */
  lemma Take(s: State, acts: seq<Action>, a: Action) returns (s': State, acts': seq<Action>)
    requires s == Run(INITIAL, acts)
    ensures s' == Next(s, a) && acts' == acts + [a] && s' == Run(INITIAL, acts')
    ensures NeverOverlaps(INITIAL, acts') <==> NeverOverlaps(INITIAL, acts) && NoOverlap(s')
    ensures NoCrash(acts') <==> NoCrash(acts) && !a.Crash?
  {
    s', acts' := Next(s, a), acts + [a];
    assert acts'[..|acts'| - 1] == acts;
    assert forall i :: 0 <= i < |acts| ==> acts[i] == acts'[i];
  }

  /** The row of an upload of `data` by tenant 0. */
  function Sample(data: Bytes): Ref { Ref(0, Key(0, "parsed_patch", Sha256(data), None)) }

  function Uploading(data: Bytes, at: PutStage): Proc { Putting(at, Sample(data), data, false, None) }

  function SampleRow(data: Bytes, state: LifeState): Row {
    Row(Sha256(data), if state.PendingUpload? then None else Some(|data|), state, false, None)
  }

  function SampleOp(data: Bytes): Op { OpPut(0, "parsed_patch", data, false, None, None) }

  /** An upload runs up to and including the write of its object. */
  lemma UploadWrites(data: Bytes) returns (acts: seq<Action>)
    ensures Run(INITIAL, acts) ==
              State(Core(map[Sample(data) := SampleRow(data, PendingUpload)], map[Sample(data).key := data], [], 0),
                    map[0 := Uploading(data, Head)])
    ensures NeverOverlaps(INITIAL, acts) && NoCrash(acts)
  {
    var ref := Sample(data);
    var s := INITIAL;
    acts := [];
    s, acts := Take(s, acts, Spawn(0, SampleOp(data)));
    assert s == State(INITIAL.core, map[0 := Uploading(data, Lookup)]);
    s, acts := Take(s, acts, Step(0, NO_FAULT));
    assert s == State(INITIAL.core, map[0 := Uploading(data, InsertRow)]);
    s, acts := Take(s, acts, Step(0, NO_FAULT));
    var rows := map[ref := SampleRow(data, PendingUpload)];
    assert s == State(Core(rows, map[], [], 0), map[0 := Uploading(data, WriteObject)]);
    s, acts := Take(s, acts, Step(0, NO_FAULT));
  }

  /** A crash between the write of the object and the commit of its row leaves drift: the absence of
      crashes in NoDriftWithoutCrash is needed. */
  lemma CrashLeavesDrift(data: Bytes)
    ensures exists acts :: NeverOverlaps(INITIAL, acts) && Run(INITIAL, acts).procs == map[]
                           && DriftOf(Run(INITIAL, acts).core, 0).pendingWithObject == {Sample(data)}
  {
    var acts := UploadWrites(data);
    var s, acts' := Take(Run(INITIAL, acts), acts, Crash(0));
    assert DriftOf(s.core, 0).pendingWithObject == {Sample(data)};
  }

  /** An upload whose object is in place verifies it and gets ready to commit. */
  lemma UploadVerifies(s0: State, acts0: seq<Action>, pid: nat, data: Bytes) returns (s: State, acts: seq<Action>)
    requires s0 == Run(INITIAL, acts0) && pid in s0.procs && s0.procs[pid] == Uploading(data, Head)
    requires Sample(data).key in s0.core.objects && s0.core.objects[Sample(data).key] == data && NoCrash(acts0)
    ensures s == Run(INITIAL, acts) && NoCrash(acts)
    ensures s == State(s0.core, s0.procs[pid := Uploading(data, Commit)])
  {
    s, acts := Take(s0, acts0, Step(pid, NO_FAULT));
    assert s == State(s0.core, s0.procs[pid := Uploading(data, Verify)]);
    s, acts := Take(s, acts, Step(pid, NO_FAULT));
    assert s == State(s0.core, s0.procs[pid := Uploading(data, Commit)]);
  }

  /** An upload completes and its deletion is requested. */
  lemma UploadThenRequest(data: Bytes) returns (s: State, acts: seq<Action>)
    ensures s == Run(INITIAL, acts) && NoCrash(acts) && s.procs.Keys == {0, 1} && s.core.clock == 0
    ensures s.core.rows == map[Sample(data) := SampleRow(data, DeleteRequested)]
    ensures s.core.objects == map[Sample(data).key := data]
  {
    var ref := Sample(data);
    acts := UploadWrites(data);
    s, acts := UploadVerifies(Run(INITIAL, acts), acts, 0, data);
    var objects := s.core.objects;
    s, acts := Take(s, acts, Step(0, NO_FAULT));
    assert s.core.rows == map[ref := SampleRow(data, Available)] && s.core.objects == objects;
    s, acts := RequestAfter(s, acts, data);
  }

  lemma RequestAfter(s0: State, acts0: seq<Action>, data: Bytes) returns (s: State, acts: seq<Action>)
    requires s0 == Run(INITIAL, acts0) && NoCrash(acts0) && s0.procs.Keys == {0} && s0.core.clock == 0
    requires s0.core.rows == map[Sample(data) := SampleRow(data, Available)]
    ensures s == Run(INITIAL, acts) && NoCrash(acts) && s.procs.Keys == {0, 1} && s.core.clock == 0
    ensures s.core.rows == map[Sample(data) := SampleRow(data, DeleteRequested)]
    ensures s.core.objects == s0.core.objects
  {
    var ref := Sample(data);
    s, acts := Take(s0, acts0, Spawn(1, OpRequestDelete(0, ref)));
    assert s.procs[1] == DeleteRequest(0, ref);
    s, acts := Take(s, acts, Step(1, NO_FAULT));
  }

  /** An upload of bytes whose row and object are there, the row not AVAILABLE, comes to check the object. */
  lemma UploadRepeats(s0: State, acts0: seq<Action>, pid: nat, data: Bytes) returns (s: State, acts: seq<Action>)
    requires s0 == Run(INITIAL, acts0) && NoCrash(acts0)
    requires pid in s0.procs && s0.procs[pid] == Uploading(data, Lookup)
    requires Sample(data) in s0.core.rows && !s0.core.rows[Sample(data)].state.Available?
    requires Sample(data).key in s0.core.objects && s0.core.objects[Sample(data).key] == data
    ensures s == Run(INITIAL, acts) && NoCrash(acts)
    ensures s == State(s0.core, s0.procs[pid := Uploading(data, Head)])
  {
    s, acts := Take(s0, acts0, Step(pid, NO_FAULT));
    assert s == State(s0.core, s0.procs[pid := Uploading(data, InsertRow)]);
    s, acts := Take(s, acts, Step(pid, NO_FAULT));
    assert s == State(s0.core, s0.procs[pid := Uploading(data, WriteObject)]);
    s, acts := Take(s, acts, Step(pid, NO_FAULT));
    assert s == State(s0.core, s0.procs[pid := Uploading(data, Head)]);
  }

  /** A second upload of the same bytes is about to commit. */
  lemma SecondUploadReady(data: Bytes) returns (s: State, acts: seq<Action>)
    ensures s == Run(INITIAL, acts) && NoCrash(acts) && s.procs.Keys == {0, 1, 2} && s.core.clock == 0
    ensures s.procs[2] == Uploading(data, Commit)
    ensures s.core.rows == map[Sample(data) := SampleRow(data, DeleteRequested)]
    ensures s.core.objects == map[Sample(data).key := data]
  {
    s, acts := UploadThenRequest(data);
    var c := s.core;
    s, acts := Take(s, acts, Spawn(2, SampleOp(data)));
    assert s.core == c && s.procs[2] == Uploading(data, Lookup);
    s, acts := UploadRepeats(s, acts, 2, data);
    s, acts := UploadVerifies(s, acts, 2, data);
  }

  /** A physical deletion selects the artifact. */
  lemma PurgeSelects(data: Bytes) returns (s: State, acts: seq<Action>)
    ensures s == Run(INITIAL, acts) && NoCrash(acts) && {2, 3} <= s.procs.Keys && Sample(data) in s.core.rows
    ensures s.procs[2] == Uploading(data, Commit)
    ensures s.procs[3] == Purging(PurgeNext, [Item(Sample(data), DeleteRequested)], [])
  {
    var ref := Sample(data);
    s, acts := SecondUploadReady(data);
    s, acts := Take(s, acts, Spawn(3, OpPurge(0, [ref])));
    assert s.procs[3] == PurgeSelect(0, [ref]);
    assert PurgeWork(s.core, 0, [ref][1..]) == [];
    s, acts := Take(s, acts, Step(3, NO_FAULT));
  }
}
