/** Physical deletion running alone against a store whose calls may fail, with or without having taken
    effect: where it leaves every row and every object. */
module FaultyPurge {
  import opened Faults
  import opened Records
  import opened Protocol
  import opened Integrity
  import opened Solo
  import opened Sequences

  /** The selected rows exist, and no two are the same or share an object. */
  ghost predicate Separate(c: Core, work: seq<Item>) {
    && (forall i :: 0 <= i < |work| ==> work[i].ref in c.rows)
    && (forall i, j :: 0 <= i < j < |work| ==> work[i].ref != work[j].ref && work[i].ref.key != work[j].ref.key)
  }

  /** One selected row is finished: confirmed with its object absent, or failed; nothing else about the row
      has changed. */
  ghost predicate Finished(c0: Core, c: Core, it: Item, result: (Ref, LifeState)) {
    && result.0 == it.ref && it.ref in c0.rows && it.ref in c.rows
    && c.rows[it.ref] == c0.rows[it.ref].(state := result.1)
    && ((result.1.PhysicallyConfirmed? && it.ref.key !in c.objects) || result.1.DeleteFailed?)
  }

  /** The artifacts of the first `n` selected rows. */
  ghost function RefsTo(work: seq<Item>, n: nat): set<Ref>
    requires n <= |work|
  {
    if n == 0 then {} else RefsTo(work, n - 1) + {work[n - 1].ref}
  }

  ghost function KeysTo(work: seq<Item>, n: nat): set<Key>
    requires n <= |work|
  {
    if n == 0 then {} else KeysTo(work, n - 1) + {work[n - 1].ref.key}
  }

  /** Rows and objects other than these are as before, and no object is new. */
  ghost predicate KeptBut(c0: Core, c: Core, refs: set<Ref>, keys: set<Key>) {
    && c.rows.Keys == c0.rows.Keys && c.clock == c0.clock
    && (forall r :: r in c.rows && r !in refs ==> c.rows[r] == c0.rows[r])
    && (forall k :: k in c.objects ==> k in c0.objects && c.objects[k] == c0.objects[k])
    && (forall k :: k in c0.objects && k !in keys ==> k in c.objects)
  }

  /** Rows and objects not among the first `n` selected are as before. */
  ghost predicate OthersKept(c0: Core, c: Core, work: seq<Item>, n: nat)
    requires n <= |work|
  {
    KeptBut(c0, c, RefsTo(work, n), KeysTo(work, n))
  }

  ghost function RefsOf(work: seq<Item>): set<Ref> { set it | it in work :: it.ref }

  ghost function KeysOf(work: seq<Item>): set<Key> { set it | it in work :: it.ref.key }

  lemma AllRefs(work: seq<Item>)
    ensures RefsTo(work, |work|) == RefsOf(work) && KeysTo(work, |work|) == KeysOf(work)
  {
    RefsToAre(work, |work|);
  }

  lemma {:induction false} RefsToAre(work: seq<Item>, n: nat)
    requires n <= |work|
    ensures forall r :: r in RefsTo(work, n) <==> exists i :: 0 <= i < n && work[i].ref == r
    ensures forall k :: k in KeysTo(work, n) <==> exists i :: 0 <= i < n && work[i].ref.key == k
  {
    if n > 0 { RefsToAre(work, n - 1); }
  }

  ghost predicate Underway(c0: Core, work: seq<Item>, x: Config) {
    var p, c := x.proc, x.core;
    && p.Purging?
    && AllFinished(c0, c, work, p.results) && p.work == work[|p.results|..]
    && (if p.work == [] then OthersKept(c0, c, work, |work|)
        else
          var ref := p.work[0].ref;
          && OthersKept(c0, c, work, |p.results| + 1)
          && ref in c.rows && ref in c0.rows && c.rows[ref] == c0.rows[ref].(state := c.rows[ref].state)
          && (p.step.Confirm? ==> ref.key !in c.objects))
  }

  lemma Starts(c: Core, work: seq<Item>)
    requires Separate(c, work)
    ensures Underway(c, work, Config(c, Purging(PurgeNext, work, [])))
  {
  }

  /** What a step does to the row it works on leaves the finished rows finished. */
  lemma StaysFinished(c0: Core, c: Core, c': Core, work: seq<Item>, i: nat, j: nat, result: (Ref, LifeState))
    requires Separate(c0, work) && i < j < |work| && Finished(c0, c, work[i], result)
    requires c'.rows.Keys == c.rows.Keys && forall r :: r in c.rows && r != work[j].ref ==> c'.rows[r] == c.rows[r]
    requires forall k :: k in c'.objects ==> k in c.objects
    ensures Finished(c0, c', work[i], result)
  {
  }

  ghost predicate AllFinished(c0: Core, c: Core, work: seq<Item>, results: seq<(Ref, LifeState)>) {
    |results| <= |work| && forall i :: 0 <= i < |results| ==> Finished(c0, c, work[i], results[i])
  }

  /** Finishing the row in hand leaves all rows up to it finished. */
  lemma {:induction false} FinishOneMore(c0: Core, c: Core, c': Core, work: seq<Item>, results: seq<(Ref, LifeState)>, next: LifeState)
    requires Separate(c0, work) && AllFinished(c0, c, work, results) && |results| < |work|
    requires c'.rows.Keys == c.rows.Keys && forall r :: r in c.rows && r != work[|results|].ref ==> c'.rows[r] == c.rows[r]
    requires (forall k :: k in c'.objects ==> k in c.objects)
    requires Finished(c0, c', work[|results|], (work[|results|].ref, next))
    ensures AllFinished(c0, c', work, results + [(work[|results|].ref, next)])
  {
    var n := |results|;
    var longer := results + [(work[n].ref, next)];
    forall i | 0 <= i <= n ensures Finished(c0, c', work[i], longer[i]) {
      if i < n { StaysFinished(c0, c, c', work, i, n, results[i]); }
    }
  }

  /** The row in hand is finished and the next one is taken up. */
  lemma Advances(c0: Core, work: seq<Item>, x: Config, next: LifeState)
    requires Separate(c0, work) && Underway(c0, work, x) && x.proc.work != []
    requires next.DeleteFailed? || (next.PhysicallyConfirmed? && x.proc.work[0].ref.key !in x.core.objects)
    ensures var ref := x.proc.work[0].ref;
            Underway(c0, work, Config(Apply(x.core, Mark(ref, PhysicalDeletePending, next, None)),
                                      Purging(PurgeNext, x.proc.work[1..], x.proc.results + [(ref, next)])))
  {
    var n, ref := |x.proc.results|, x.proc.work[0].ref;
    assert x.proc.work[0] == work[n] && x.proc.work[1..] == work[n + 1..];
    var c' := Apply(x.core, Mark(ref, PhysicalDeletePending, next, None));
    FinishOneMore(c0, x.core, c', work, x.proc.results, next);
    MarkKeepsOthers(c0, x.core, work, n, Mark(ref, PhysicalDeletePending, next, None));
    if n + 1 < |work| { TakenUp(c0, c', work, n + 1); }
  }

  lemma {:induction false} MarkKeepsOthers(c0: Core, c: Core, work: seq<Item>, n: nat, e: Effect)
    requires n < |work| && OthersKept(c0, c, work, n + 1) && e.Mark? && e.ref == work[n].ref && e.ref in c.rows
    ensures OthersKept(c0, Apply(c, e), work, n + 1)
  {
    assert e.ref in RefsTo(work, n + 1);
  }

  /** A row not yet touched is ready to be taken up. */
  lemma TakenUp(c0: Core, c: Core, work: seq<Item>, n: nat)
    requires Separate(c0, work) && n < |work| && OthersKept(c0, c, work, n)
    ensures OthersKept(c0, c, work, n + 1)
    ensures work[n].ref in c.rows && c.rows[work[n].ref] == c0.rows[work[n].ref]
  {
    OthersKeptMore(c0, c, work, n);
    NotYetTouched(c0, c, work, n);
  }

  lemma OthersKeptMore(c0: Core, c: Core, work: seq<Item>, n: nat)
    requires n < |work| && OthersKept(c0, c, work, n)
    ensures OthersKept(c0, c, work, n + 1)
  {
  }

  lemma NotYetTouched(c0: Core, c: Core, work: seq<Item>, n: nat)
    requires Separate(c0, work) && n < |work| && OthersKept(c0, c, work, n)
    ensures work[n].ref in c.rows && c.rows[work[n].ref] == c0.rows[work[n].ref]
  {
    RefsToAre(work, n);
  }

  /** A step on the row in hand that does not finish it. */
  lemma {:induction false} Proceeds(c0: Core, work: seq<Item>, x: Config, c': Core, step: PurgeStage)
    requires Separate(c0, work) && Underway(c0, work, x) && x.proc.work != []
    requires var ref := x.proc.work[0].ref;
             && c'.rows.Keys == x.core.rows.Keys && c'.clock == x.core.clock
             && (forall r :: r in c'.rows && r != ref ==> c'.rows[r] == x.core.rows[r])
             && c'.rows[ref] == x.core.rows[ref].(state := c'.rows[ref].state)
             && (c'.objects == x.core.objects || c'.objects == x.core.objects - {ref.key})
             && (step.Confirm? ==> ref.key !in c'.objects)
    ensures Underway(c0, work, Config(c', Purging(step, x.proc.work, x.proc.results)))
  {
    var n := |x.proc.results|;
    assert x.proc.work[0] == work[n];
    forall i | 0 <= i < n ensures Finished(c0, c', work[i], x.proc.results[i]) {
      StaysFinished(c0, x.core, c', work, i, n, x.proc.results[i]);
    }
    assert work[n].ref in RefsTo(work, n + 1) && work[n].ref.key in KeysTo(work, n + 1);
  }

  /** What a step that does not finish the row in hand does to the core. */
  lemma StepInHand(c: Core, p: Proc, ch: Choice)
    requires p.Purging? && p.work != [] && p.work[0].ref in c.rows
    requires !p.step.PurgeFailed? && !(p.step.Confirm? && !ch.fault)
    ensures var (e, p') := PlanPurge(c, p, ch);
            var c', ref := Apply(c, e), p.work[0].ref;
            && p' == Purging(p'.step, p.work, p.results)
            && c'.rows.Keys == c.rows.Keys && c'.clock == c.clock
            && (forall r :: r in c'.rows && r != ref ==> c'.rows[r] == c.rows[r])
            && c'.rows[ref] == c.rows[ref].(state := c'.rows[ref].state)
            && (c'.objects == c.objects || c'.objects == c.objects - {ref.key})
            && (p'.step.Confirm? ==> ref.key !in c'.objects)
  {
  }

  /** What a step that finishes the row in hand is. */
  lemma StepFinishing(c: Core, p: Proc, ch: Choice) returns (next: LifeState)
    requires p.Purging? && p.work != [] && (p.step.PurgeFailed? || (p.step.Confirm? && !ch.fault))
    ensures next == if p.step.PurgeFailed? then DeleteFailed else PhysicallyConfirmed
    ensures PlanPurge(c, p, ch) == (Mark(p.work[0].ref, PhysicalDeletePending, next, None),
                                    Purging(PurgeNext, p.work[1..], p.results + [(p.work[0].ref, next)]))
  {
    next := if p.step.PurgeFailed? then DeleteFailed else PhysicallyConfirmed;
  }

  lemma StepFinishes(c0: Core, work: seq<Item>, x: Config, ch: Choice)
    requires Separate(c0, work) && Underway(c0, work, x) && x.proc.work != []
    requires x.proc.step.PurgeFailed? || (x.proc.step.Confirm? && !ch.fault)
    ensures var (e, p) := PlanPurge(x.core, x.proc, ch); Underway(c0, work, Config(Apply(x.core, e), p))
  {
    var next := StepFinishing(x.core, x.proc, ch);
    Advances(c0, work, x, next);
  }

  lemma {:induction false} StepProceeds(c0: Core, work: seq<Item>, x: Config, ch: Choice)
    requires Separate(c0, work) && Underway(c0, work, x) && x.proc.work != []
    requires !x.proc.step.PurgeFailed? && !(x.proc.step.Confirm? && !ch.fault)
    ensures var (e, p) := PlanPurge(x.core, x.proc, ch); Underway(c0, work, Config(Apply(x.core, e), p))
  {
    StepInHand(x.core, x.proc, ch);
    var (e, p) := PlanPurge(x.core, x.proc, ch);
    Proceeds(c0, work, x, Apply(x.core, e), p.step);
  }

  /** The end of the operation: every selected row is confirmed with its object absent, or failed, and
      reported as such; every other row and every other object is as before. */
  ghost predicate Completed(c0: Core, work: seq<Item>, x: Config) {
    && x.proc.Done? && x.proc.outcome.Purged? && |x.proc.outcome.results| == |work|
    && AllFinished(c0, x.core, work, x.proc.outcome.results)
    && OthersKept(c0, x.core, work, |work|)
  }

  /** One step of an operation that is underway or completed. */
  lemma StepStays(c0: Core, work: seq<Item>, y: Config, ch: Choice)
    requires Separate(c0, work) && (Underway(c0, work, y) || Completed(c0, work, y))
    ensures var (e, p) := Plan(y.core, y.proc, ch);
            var x := Config(Apply(y.core, e), p);
            Underway(c0, work, x) || Completed(c0, work, x)
  {
    if Underway(c0, work, y) && y.proc.work != [] {
      if y.proc.step.PurgeFailed? || (y.proc.step.Confirm? && !ch.fault) {
        StepFinishes(c0, work, y, ch);
      } else {
        StepProceeds(c0, work, y, ch);
      }
    }
  }

  lemma {:induction false} FaultyUnderway(c0: Core, work: seq<Item>, choices: seq<Choice>)
    requires Separate(c0, work)
    ensures var x := Faulty(Config(c0, Purging(PurgeNext, work, [])), choices);
            Underway(c0, work, x) || Completed(c0, work, x)
  {
    if choices == [] {
      Starts(c0, work);
    } else {
      var before := choices[..|choices| - 1];
      FaultyUnderway(c0, work, before);
      StepStays(c0, work, Faulty(Config(c0, Purging(PurgeNext, work, [])), before), choices[|choices| - 1]);
    }
  }

  /** Whatever store calls fail: when a physical deletion has run to its end, each selected row is
      PHYSICALLY_CONFIRMED with its object absent, or DELETE_FAILED, the result list says which, and every
      unselected row and every other object is unchanged. */
  lemma FaultyPurgeOutcome(c0: Core, org: nat, scan: seq<Ref>, choices: seq<Choice>)
    requires Distinct(scan) && forall r :: r in c0.rows ==> RowOk(c0, r)
    requires Faulty(Config(c0, Purging(PurgeNext, PurgeWork(c0, org, scan), [])), choices).proc.Done?
    ensures var work := PurgeWork(c0, org, scan);
            var x := Faulty(Config(c0, Purging(PurgeNext, work, [])), choices);
            && x.proc.outcome.Purged? && AllFinished(c0, x.core, work, x.proc.outcome.results)
            && |x.proc.outcome.results| == |work|
            && KeptBut(c0, x.core, RefsOf(work), KeysOf(work))
  {
    var work := PurgeWork(c0, org, scan);
    ScanSeparate(c0, org, scan);
    FaultyUnderway(c0, work, choices);
    AllRefs(work);
  }

  lemma {:induction false} ScanSeparate(c: Core, org: nat, scan: seq<Ref>)
    requires Distinct(scan) && forall r :: r in c.rows ==> RowOk(c, r)
    ensures Separate(c, PurgeWork(c, org, scan))
    ensures forall i :: 0 <= i < |PurgeWork(c, org, scan)| ==>
              PurgeWork(c, org, scan)[i].ref in scan && Purgeable(c, org, PurgeWork(c, org, scan)[i].ref)
  {
    if scan != [] {
      ScanSeparate(c, org, scan[1..]);
      assert scan[0] !in scan[1..];
      assert forall r, s :: Purgeable(c, org, r) && Purgeable(c, org, s) && r.key == s.key ==> r == s;
    }
  }

  // ---------------------------------------------------------------- the audit of a faulty deletion

  /** The events up to the removal of a row's object. */
  function Approach(it: Item): seq<Event> {
    (if it.seen.DeleteRequested? then [Event(it.ref, DeleteRequested, LogicallyDeleted)] else [])
    + [Event(it.ref, LogicallyDeleted, PhysicalDeletePending)]
  }

  /** The events of the row in hand so far. */
  function SoFar(it: Item, step: PurgeStage): seq<Event> {
    if step.PurgeNext? then []
    else if step.Pending? then [Event(it.ref, DeleteRequested, LogicallyDeleted)]
    else Approach(it)
  }

  /** The events of the finished rows: each row's lifecycle in order, ending in its result. */
  function TrailOf(work: seq<Item>, results: seq<(Ref, LifeState)>): seq<Event>
    requires |results| <= |work|
  {
    if results == [] then []
    else
      var n := |results| - 1;
      TrailOf(work, results[..n]) + Approach(work[n]) + [Event(work[n].ref, PhysicalDeletePending, results[n].1)]
  }

  ghost predicate Trailed(c0: Core, work: seq<Item>, x: Config) {
    var p := x.proc;
    && p.Purging? && |p.results| <= |work| && p.work == work[|p.results|..]
    && (p.step.Pending? && p.work != [] ==> p.work[0].seen.DeleteRequested?)
    && x.core.audit == c0.audit + TrailOf(work, p.results) + (if p.work == [] then [] else SoFar(p.work[0], p.step))
  }

  lemma {:induction false} FinishTrailed(c0: Core, work: seq<Item>, x: Config, next: LifeState)
    requires Trailed(c0, work, x) && x.proc.work != []
    requires x.proc.step.PurgeFailed? || x.proc.step.Confirm?
    ensures var ref := x.proc.work[0].ref;
            Trailed(c0, work, Config(Apply(x.core, Mark(ref, PhysicalDeletePending, next, None)),
                                     Purging(PurgeNext, x.proc.work[1..], x.proc.results + [(ref, next)])))
  {
    var n, ref := |x.proc.results|, x.proc.work[0].ref;
    var results := x.proc.results + [(ref, next)];
    assert results[..n] == x.proc.results && x.proc.work[0] == work[n] && x.proc.work[1..] == work[n + 1..];
    assert TrailOf(work, results) == TrailOf(work, x.proc.results) + Approach(work[n])
                                     + [Event(ref, PhysicalDeletePending, next)];
  }

  /** A step before the removal appends one event of the row in hand. */
  lemma {:induction false} MarkTrailed(c0: Core, work: seq<Item>, x: Config, ch: Choice)
    requires Trailed(c0, work, x) && x.proc.work != [] && (x.proc.step.PurgeNext? || x.proc.step.Pending?)
    ensures var (e, p) := PlanPurge(x.core, x.proc, ch); Trailed(c0, work, Config(Apply(x.core, e), p))
  {
    var it := x.proc.work[0];
    var (e, p) := PlanPurge(x.core, x.proc, ch);
    assert SoFar(it, p.step) == SoFar(it, x.proc.step) + [Event(e.ref, e.prior, e.next)];
  }

  /** Removing and probing append nothing. */
  lemma {:induction false} QuietTrailed(c0: Core, work: seq<Item>, x: Config, ch: Choice)
    requires Trailed(c0, work, x) && x.proc.work != []
    requires x.proc.step.RemoveObject? || x.proc.step.Probe? || (x.proc.step.Confirm? && ch.fault)
    ensures var (e, p) := PlanPurge(x.core, x.proc, ch); Trailed(c0, work, Config(Apply(x.core, e), p))
  {
    var (e, p) := PlanPurge(x.core, x.proc, ch);
    assert Apply(x.core, e).audit == x.core.audit && SoFar(x.proc.work[0], p.step) == SoFar(x.proc.work[0], x.proc.step);
  }

  lemma {:induction false} EndTrailed(c0: Core, work: seq<Item>, x: Config, ch: Choice)
    requires Trailed(c0, work, x) && x.proc.work != []
    requires x.proc.step.PurgeFailed? || (x.proc.step.Confirm? && !ch.fault)
    ensures var (e, p) := PlanPurge(x.core, x.proc, ch); Trailed(c0, work, Config(Apply(x.core, e), p))
  {
    var next := StepFinishing(x.core, x.proc, ch);
    FinishTrailed(c0, work, x, next);
  }

  lemma {:induction false} FaultyTrailed(c0: Core, work: seq<Item>, choices: seq<Choice>)
    ensures var x := Faulty(Config(c0, Purging(PurgeNext, work, [])), choices);
            Trailed(c0, work, x)
            || (x.proc.Done? && x.proc.outcome.Purged? && |x.proc.outcome.results| == |work|
                && x.core.audit == c0.audit + TrailOf(work, x.proc.outcome.results))
  {
    if choices == [] {
      assert c0.audit + [] + [] == c0.audit;
    } else {
      var before := choices[..|choices| - 1];
      FaultyTrailed(c0, work, before);
      var y := Faulty(Config(c0, Purging(PurgeNext, work, [])), before);
      var ch := choices[|choices| - 1];
      if Trailed(c0, work, y) && y.proc.work != [] {
        if y.proc.step.PurgeFailed? || (y.proc.step.Confirm? && !ch.fault) {
          EndTrailed(c0, work, y, ch);
        } else if y.proc.step.PurgeNext? || y.proc.step.Pending? {
          MarkTrailed(c0, work, y, ch);
        } else {
          QuietTrailed(c0, work, y, ch);
        }
      }
    }
  }

  /** Whatever store calls fail, a completed physical deletion appends the lifecycle of each selected row in
      order, ending in the reported result, and nothing else. */
  lemma FaultyPurgeTrail(c0: Core, work: seq<Item>, choices: seq<Choice>)
    requires Faulty(Config(c0, Purging(PurgeNext, work, [])), choices).proc.Done?
    ensures var x := Faulty(Config(c0, Purging(PurgeNext, work, [])), choices);
            x.proc.outcome.Purged? && |x.proc.outcome.results| == |work|
            && x.core.audit == c0.audit + TrailOf(work, x.proc.outcome.results)
  {
    FaultyTrailed(c0, work, choices);
  }
}
