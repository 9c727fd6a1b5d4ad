/** The audit trail against the rows: each transition writes its event in the transaction that changes
    the row, so the newest event of an artifact should name the row's state. */
module AuditTrail {
  import opened Records
  import opened Protocol
  import opened Integrity
  import opened Reconciliation

  /** The newest event of artifact `r`. */
  function Newest(audit: seq<Event>, r: Ref): Option<Event> {
    if audit == [] then None
    else if audit[|audit| - 1].ref == r then Some(audit[|audit| - 1])
    else Newest(audit[..|audit| - 1], r)
  }

  /** The state the trail reports: that of the newest event, or PENDING_UPLOAD before any event. */
  function Reported(audit: seq<Event>, r: Ref): LifeState {
    var e := Newest(audit, r); if e.Some? then e.value.next else PendingUpload
  }

  /** Every row's state is the one the trail reports, and artifacts without a row have no event. */
  ghost predicate Agrees(c: Core) {
    && (forall r :: r in c.rows ==> c.rows[r].state == Reported(c.audit, r))
    && (forall r :: r !in c.rows ==> Newest(c.audit, r).None?)
  }

  lemma {:induction false} NewestSnoc(audit: seq<Event>, e: Event, r: Ref)
    ensures Newest(audit + [e], r) == if e.ref == r then Some(e) else Newest(audit, r)
  {
    assert (audit + [e])[..|audit|] == audit;
  }

  /** Exactly which steps keep the trail and the rows in agreement: all of them, except a deletion
      request for a row that is neither AVAILABLE nor already DELETE_REQUESTED. */
  lemma {:induction false} StepKeepsAgreementIff(c: Core, e: Effect)
    requires Agrees(c) && EffectOk(c, e)
    ensures Agrees(Apply(c, e)) <==>
            (e.Request? ==> c.rows[e.ref].state.Available? || c.rows[e.ref].state.DeleteRequested?)
  {
    var c' := Apply(c, e);
    if e.Mark? || e.Request? {
      var ev := c'.audit[|c.audit|];
      forall r ensures Newest(c'.audit, r) == if ev.ref == r then Some(ev) else Newest(c.audit, r) {
        NewestSnoc(c.audit, ev, r);
      }
    }
    if e.Request? { assert e.ref in c'.rows; }
  }

  /** The effect of an action on the core. */
  function EffectOf(s: State, a: Action): Effect {
    if a.Step? && a.pid in s.procs then Plan(s.core, s.procs[a.pid], a.choice).0 else NoEffect
  }

  /** If the action records a deletion request, then of a row that is AVAILABLE or DELETE_REQUESTED. */
  ghost predicate RequestFits(s: State, a: Action) {
    var e := EffectOf(s, a);
    e.Request? ==> e.ref in s.core.rows
                   && (s.core.rows[e.ref].state.Available? || s.core.rows[e.ref].state.DeleteRequested?)
  }

  /** Exactly which actions keep trail and rows in agreement. */
  lemma ActionKeepsAgreementIff(s: State, a: Action)
    requires StateOk(s) && Agrees(s.core)
    ensures Agrees(Next(s, a).core) <==> RequestFits(s, a)
  {
    if a.Step? && a.pid in s.procs {
      PlanOk(s.core, s.procs[a.pid], a.choice);
      StepKeepsAgreementIff(s.core, EffectOf(s, a));
    }
  }

  ghost predicate RequestsFit(acts: seq<Action>) {
    forall i :: 0 <= i < |acts| ==> RequestFits(Run(INITIAL, acts[..i]), acts[i])
  }

  /** The trail agrees with the rows all along the run. */
  ghost predicate AlwaysAgrees(acts: seq<Action>) { forall i :: 0 <= i <= |acts| ==> Agrees(Run(INITIAL, acts[..i]).core) }

  lemma OneActionMore(acts: seq<Action>, i: nat)
    requires i < |acts|
    ensures Run(INITIAL, acts[..i + 1]) == Next(Run(INITIAL, acts[..i]), acts[i]) && StateOk(Run(INITIAL, acts[..i]))
  {
    assert acts[..i + 1][..i] == acts[..i];
    RunOk(INITIAL, acts[..i]);
  }

  lemma {:induction false} FittingRequestsAgree(acts: seq<Action>, i: nat)
    requires RequestsFit(acts) && i <= |acts|
    ensures Agrees(Run(INITIAL, acts[..i]).core)
  {
    if i > 0 {
      FittingRequestsAgree(acts, i - 1);
      OneActionMore(acts, i - 1);
      ActionKeepsAgreementIff(Run(INITIAL, acts[..i - 1]), acts[i - 1]);
    }
  }

  /** Over every run, interleaved and crashing at will: the newest audit event of each artifact names its row's
      state all along, and a row without an event is PENDING_UPLOAD, exactly when every deletion request
      recorded in the run is of a row that is AVAILABLE or already DELETE_REQUESTED. */
  lemma TrailNamesTheState(acts: seq<Action>)
    ensures AlwaysAgrees(acts) <==> RequestsFit(acts)
  {
    if RequestsFit(acts) {
      forall i | 0 <= i <= |acts| ensures Agrees(Run(INITIAL, acts[..i]).core) { FittingRequestsAgree(acts, i); }
    }
    if AlwaysAgrees(acts) {
      forall i | 0 <= i < |acts| ensures RequestFits(Run(INITIAL, acts[..i]), acts[i]) {
        OneActionMore(acts, i);
        assert Agrees(Run(INITIAL, acts[..i]).core) && Agrees(Run(INITIAL, acts[..i + 1]).core);
        ActionKeepsAgreementIff(Run(INITIAL, acts[..i]), acts[i]);
      }
    }
  }

  /** Without that condition the trail can be wrong: a request for an upload still PENDING is recorded
      as DELETE_REQUESTED and leaves the row as it was. */
  lemma RequestOfPendingDisagrees(data: Bytes)
    ensures exists acts :: var c := Run(INITIAL, acts).core;
              Sample(data) in c.rows && c.rows[Sample(data)].state.PendingUpload?
              && Reported(c.audit, Sample(data)).DeleteRequested?
  {
    var acts := UploadWrites(data);
    var s := Run(INITIAL, acts);
    s, acts := Take(s, acts, Spawn(1, OpRequestDelete(0, Sample(data))));
    assert s.procs[1] == DeleteRequest(0, Sample(data));
    s, acts := Take(s, acts, Step(1, NO_FAULT));
    assert s.core.audit == [Event(Sample(data), Available, DeleteRequested)];
  }
}
