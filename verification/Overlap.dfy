/** What overlap does: whenever an operation is about to make an artifact AVAILABLE while a physical deletion has
    yet to remove its object, the run can go on to leave the row AVAILABLE without its object. */
module Overlap {
  import opened Records
  import opened Protocol
  import opened Integrity
  import opened Reconciliation

  /** The operation's next step makes `r` AVAILABLE, whatever has become of its object: an upload that has
      checked what it wrote, or a repair that has checked what it found. */
  ghost predicate AboutToServe(p: Proc, r: Ref) {
    || (p.Putting? && p.at.Commit? && p.ref == r)
    || (p.Repairing? && p.stage.Recover? && p.work != [] && p.work[0].ref == r)
  }

  /** The physical deletion has selected `r` and not yet removed its object. */
  ghost predicate YetToRemove(p: Proc, r: Ref) {
    && p.Purging? && p.work != []
    && ((p.work[0].ref == r && (p.step.PurgeNext? || p.step.Pending? || p.step.RemoveObject?))
        || exists i :: 1 <= i < |p.work| && p.work[i].ref == r)
  }

  function Rank(step: PurgeStage): nat {
    match step
    case PurgeNext => 5
    case Pending => 4
    case RemoveObject => 3
    case Probe => 2
    case Confirm => 1
    case PurgeFailed => 1
  }

  /** How many steps a physical deletion can still take. */
  function StepsLeft(p: Proc): nat { if p.Purging? then 6 * |p.work| + Rank(p.step) else 0 }

  lemma {:induction false} RunOn(s: State, acts: seq<Action>, more: seq<Action>)
    ensures Run(s, acts + more) == Run(Run(s, acts), more)
  {
    if more == [] {
      assert acts + more == acts;
    } else {
      var n := |more| - 1;
      RunOn(s, acts, more[..n]);
      assert (acts + more)[..|acts + more| - 1] == acts + more[..n];
    }
  }

  lemma RunFirst(s: State, a: Action, more: seq<Action>)
    ensures Run(s, [a] + more) == Run(Next(s, a), more)
  {
    assert [a][..0] == [] && Run(s, [a]) == Next(s, a);
    RunOn(s, [a], more);
  }

  /** A step of the deletion that does not remove the object of `r` brings it closer to doing so. */
  lemma {:induction false} ComesCloser(c: Core, p: Proc, r: Ref)
    requires YetToRemove(p, r) && !(p.step.RemoveObject? && p.work[0].ref == r)
    ensures var p' := Plan(c, p, NO_FAULT).1; YetToRemove(p', r) && StepsLeft(p') < StepsLeft(p)
  {
    var p' := Plan(c, p, NO_FAULT).1;
    if i :| 1 <= i < |p.work| && p.work[i].ref == r {
      assert p'.work == p.work || (p'.work == p.work[1..] && p'.work[i - 1].ref == r);
      assert p'.work == p.work ==> p'.work[i].ref == r;
    }
  }

  /** The deletion goes on, alone, until it has removed the object of `r`. */
  lemma GoesOnToRemove(s: State, j: nat, r: Ref) returns (more: seq<Action>)
    requires j in s.procs && YetToRemove(s.procs[j], r)
    ensures var s' := Run(s, more);
            && r.key !in s'.core.objects && s.core.rows.Keys <= s'.core.rows.Keys
            && j in s'.procs && s'.procs == s.procs[j := s'.procs[j]]
    ensures forall a <- more :: a == Step(j, NO_FAULT)
    decreases StepsLeft(s.procs[j])
  {
    var p, a := s.procs[j], Step(j, NO_FAULT);
    var s1 := Next(s, a);
    if p.step.RemoveObject? && p.work[0].ref == r {
      more := [a];
      RunFirst(s, a, []);
    } else {
      ComesCloser(s.core, p, r);
      more := GoesOnToRemove(s1, j, r);
      RunFirst(s, a, more);
      more := [a] + more;
    }
  }

  /** The step that makes `r` AVAILABLE looks at no object. */
  lemma Serves(s: State, i: nat, r: Ref)
    requires i in s.procs && AboutToServe(s.procs[i], r) && r in s.core.rows
    ensures var c := Next(s, Step(i, NO_FAULT)).core;
            r in c.rows && c.rows[r].state.Available? && c.objects == s.core.objects
  {
  }

  lemma KnownToServer(acts: seq<Action>, i: nat, r: Ref)
    requires var s := Run(INITIAL, acts); i in s.procs && AboutToServe(s.procs[i], r)
    ensures r in Run(INITIAL, acts).core.rows
  {
    var s := Run(INITIAL, acts);
    RunOk(INITIAL, acts);
    assert ProcOk(s.core, s.procs[i]);
    if s.procs[i].Repairing? { assert s.procs[i].work[0] in s.procs[i].work; }
  }

  /** `r` is served without its object. */
  ghost predicate Broken(c: Core, r: Ref) { r in c.rows && c.rows[r].state.Available? && r.key !in c.objects }

  lemma OverlapBreaks(s: State, i: nat, j: nat, r: Ref) returns (more: seq<Action>)
    requires i in s.procs && j in s.procs && AboutToServe(s.procs[i], r) && YetToRemove(s.procs[j], r)
    requires r in s.core.rows
    ensures Broken(Run(s, more).core, r)
    ensures forall a <- more :: a == Step(i, NO_FAULT) || a == Step(j, NO_FAULT)
  {
    var removing := GoesOnToRemove(s, j, r);
    var t := Run(s, removing);
    Serves(t, i, r);
    more := removing + [Step(i, NO_FAULT)];
    RunOn(s, removing, [Step(i, NO_FAULT)]);
    RunFirst(t, Step(i, NO_FAULT), []);
    assert [Step(i, NO_FAULT)] + [] == [Step(i, NO_FAULT)];
  }

  /** Overlap in the critical window always breaks integrity: from every reachable state in which one operation
      is about to make `r` AVAILABLE and a physical deletion has yet to remove its object, some continuation
      without crashes or failures leaves `r` AVAILABLE without its object. */
  lemma CriticalOverlapBreaksIntegrity(acts: seq<Action>, i: nat, j: nat, r: Ref) returns (more: seq<Action>)
    requires var s := Run(INITIAL, acts);
             i in s.procs && j in s.procs && AboutToServe(s.procs[i], r) && YetToRemove(s.procs[j], r)
    ensures Broken(Run(INITIAL, acts + more).core, r)
    ensures forall a <- more :: a == Step(i, NO_FAULT) || a == Step(j, NO_FAULT)
  {
    KnownToServer(acts, i, r);
    more := OverlapBreaks(Run(INITIAL, acts), i, j, r);
    RunOn(INITIAL, acts, more);
  }

  /** Such states are reached, no crash needed: the unconditional update to AVAILABLE commits after a physical
      deletion removed the object. */
  lemma OverlapBreaksIntegrity(data: Bytes)
    ensures exists acts :: NoCrash(acts) && Broken(Run(INITIAL, acts).core, Sample(data))
  {
    var s, acts := PurgeSelects(data);
    assert YetToRemove(s.procs[3], Sample(data)) && AboutToServe(s.procs[2], Sample(data));
    var more := CriticalOverlapBreaksIntegrity(acts, 2, 3, Sample(data));
    var all := acts + more;
    forall i: nat | i < |all| ensures !all[i].Crash? {
      if i >= |acts| { assert all[i] in more; }
    }
    assert NoCrash(all);
  }
}
