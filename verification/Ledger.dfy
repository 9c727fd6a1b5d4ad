/** The in-memory audit ledger: append-only events, each holding the hash of its predecessor, and the check
    that a sequence of events is such a chain. */
module Ledger {

  const EVENT_TYPES: set<string> := {"add", "search", "read", "injection", "promotion", "rejection", "deprecation",
                                     "deletion", "permission_denied", "outcome"}

  /** What an event is linked to: the start of the ledger, or a digest. */
  datatype Link = Genesis | Sha(digest: nat)

  datatype Body = Body(seqNo: nat, kind: string, actor: string, subject: string, detail: nat, time: int, prev: Link)

  datatype Event = Event(body: Body, hash: Link)

  datatype Emitted = Emitted(event: Event) | UnknownType

  /** The truncated digest of an event's body; nothing is assumed of it. */
  const Digest: Body -> nat

  /** The hash the next event has to name. */
  function LinkAfter(es: seq<Event>): Link { if es == [] then Genesis else es[|es| - 1].hash }

  /** Every event names the hash of the one before it. */
  ghost predicate Chained(es: seq<Event>) { forall i :: 0 <= i < |es| ==> es[i].body.prev == LinkAfter(es[..i]) }

  /** A ledger: numbered, chained, and hashed. */
  ghost predicate IsLedger(es: seq<Event>) {
    Chained(es) && forall i :: 0 <= i < |es| ==> es[i].body.seqNo == i && es[i].hash == Sha(Digest(es[i].body))
  }

  class AuditLedger {
    var recorded: seq<Event>

    ghost predicate Valid()
      reads this
    {
      IsLedger(recorded)
    }

    constructor ()
      ensures Valid() && recorded == []
    {
      recorded := [];
    }

    /** Appends an event; an unknown type leaves the ledger as it is. */
    method Emit(kind: string, actor: string, subject: string, detail: nat, time: int) returns (r: Emitted)
      requires Valid()
      modifies this
      ensures Valid()
      ensures r.UnknownType? <==> kind !in EVENT_TYPES
      ensures r.UnknownType? ==> recorded == old(recorded)
      ensures r.Emitted? ==>
                && recorded == old(recorded) + [r.event]
                && r.event.body == Body(|old(recorded)|, kind, actor, subject, detail, time, LinkAfter(old(recorded)))
    {
      if kind !in EVENT_TYPES { return UnknownType; }
      var prev := if recorded != [] then recorded[|recorded| - 1].hash else Genesis;
      var body := Body(|recorded|, kind, actor, subject, detail, time, prev);
      var event := Event(body, Sha(Digest(body)));
      AppendKeeps(recorded, event);
      recorded := recorded + [event];
      return Emitted(event);
    }

    /** The events of one type, or all of them, in order. */
    method Events(kind: string, all: bool) returns (es: seq<Event>)
      ensures es == OfKind(recorded, kind, all)
      ensures forall e :: e in es <==> e in recorded && (all || e.body.kind == kind)
      ensures Valid() ==> forall i, j :: 0 <= i < j < |es| ==> es[i].body.seqNo < es[j].body.seqNo
    {
      es := [];
      for i := 0 to |recorded|
        invariant es == OfKind(recorded[..i], kind, all)
      {
        assert recorded[..i + 1][..i] == recorded[..i];
        if all || recorded[i].body.kind == kind { es := es + [recorded[i]]; }
      }
      assert recorded[..|recorded|] == recorded;
      forall e { OfKindHolds(recorded, kind, all, e); }
      if Numbered(recorded) { OfKindOrdered(recorded, kind, all); }
    }
  }

  function OfKind(es: seq<Event>, kind: string, all: bool): seq<Event> {
    if es == [] then []
    else var last := es[|es| - 1];
         OfKind(es[..|es| - 1], kind, all) + (if all || last.body.kind == kind then [last] else [])
  }

  lemma {:induction false} OfKindHolds(es: seq<Event>, kind: string, all: bool, e: Event)
    ensures e in OfKind(es, kind, all) <==> e in es && (all || e.body.kind == kind)
  {
    if es != [] {
      OfKindHolds(es[..|es| - 1], kind, all, e);
      assert es == es[..|es| - 1] + [es[|es| - 1]];
    }
  }

  ghost predicate Numbered(es: seq<Event>) { forall i :: 0 <= i < |es| ==> es[i].body.seqNo == i }

  ghost predicate Increasing(es: seq<Event>) { forall i, j :: 0 <= i < j < |es| ==> es[i].body.seqNo < es[j].body.seqNo }

  lemma {:induction false} OfKindOrdered(es: seq<Event>, kind: string, all: bool)
    requires Numbered(es)
    ensures Increasing(OfKind(es, kind, all))
  {
    if es != [] {
      var front := es[..|es| - 1];
      var found := OfKind(front, kind, all);
      OfKindOrdered(front, kind, all);
      forall i | 0 <= i < |found| ensures found[i].body.seqNo < |front| {
        OfKindHolds(front, kind, all, found[i]);
        assert found[i] in front;
      }
    }
  }

  lemma {:induction false} AppendKeeps(es: seq<Event>, e: Event)
    requires IsLedger(es) && e.body.seqNo == |es| && e.body.prev == LinkAfter(es) && e.hash == Sha(Digest(e.body))
    ensures IsLedger(es + [e])
  {
    forall i | 0 <= i <= |es| ensures (es + [e])[i].body.prev == LinkAfter((es + [e])[..i]) {
      assert (es + [e])[..i] == es[..i];
      assert es[..|es|] == es;
    }
  }

  /** The completeness score: 1 for a chain, 0 otherwise. */
  method Completeness(es: seq<Event>) returns (score: real)
    ensures score == if Chained(es) then 1.0 else 0.0
    ensures score == 1.0 <==> (es != [] ==> es[0].body.prev == Genesis)
                              && forall i, j :: 0 <= i < j < |es| && j == i + 1 ==> es[j].body.prev == es[i].hash
  {
    ChainedIff(es);
    var prev := Genesis;
    for i := 0 to |es|
      invariant Chained(es[..i]) && prev == LinkAfter(es[..i])
    {
      ChainedStep(es, i);
      if es[i].body.prev != prev { return 0.0; }
      prev := es[i].hash;
    }
    assert es[..|es|] == es;
    return 1.0;
  }

  lemma LinkAt(es: seq<Event>, i: nat)
    requires i <= |es|
    ensures LinkAfter(es[..i]) == if i == 0 then Genesis else es[i - 1].hash
  {
  }

  lemma {:induction false} ChainedIff(es: seq<Event>)
    ensures Chained(es) <==> (es != [] ==> es[0].body.prev == Genesis)
                             && forall i, j :: 0 <= i < j < |es| && j == i + 1 ==> es[j].body.prev == es[i].hash
  {
    if Chained(es) {
      forall i, j | 0 <= i < j < |es| && j == i + 1 ensures es[j].body.prev == es[i].hash { LinkAt(es, j); }
    }
    if (es != [] ==> es[0].body.prev == Genesis)
       && forall i, j :: 0 <= i < j < |es| && j == i + 1 ==> es[j].body.prev == es[i].hash
    {
      forall j | 0 <= j < |es| ensures es[j].body.prev == LinkAfter(es[..j]) {
        LinkAt(es, j);
        if j > 0 { var i := j - 1; assert es[j].body.prev == es[i].hash; }
      }
    }
  }

  lemma ChainedStep(es: seq<Event>, i: nat)
    requires i < |es| && Chained(es[..i])
    ensures Chained(es[..i + 1]) <==> es[i].body.prev == LinkAfter(es[..i])
    ensures Chained(es) ==> es[i].body.prev == LinkAfter(es[..i])
    ensures LinkAfter(es[..i + 1]) == es[i].hash
  {
    var next := es[..i + 1];
    assert next[..i] == es[..i];
    forall j | 0 <= j < i ensures next[j].body.prev == LinkAfter(next[..j]) {
      assert es[..i][j] == next[j] && es[..i][..j] == next[..j];
    }
  }

  // ---------------------------------------------------------------- what the chain pins down

  ghost predicate HashesDistinct(es: seq<Event>) { forall i, j :: 0 <= i < j < |es| ==> es[i].hash != es[j].hash }

  ghost predicate DrawnFrom(s: seq<Event>, es: seq<Event>) { forall e :: e in s ==> e in es }

  lemma {:induction false} PrefixChained(es: seq<Event>, n: nat)
    requires Chained(es) && n <= |es|
    ensures Chained(es[..n]) && DrawnFrom(es[..n], es)
  {
    forall i | 0 <= i < n ensures es[..n][i].body.prev == LinkAfter(es[..n][..i]) {
      assert es[..n][..i] == es[..i];
    }
  }

  lemma SameHashSameEvent(es: seq<Event>, i: nat, j: nat)
    requires HashesDistinct(es) && i < |es| && j < |es| && es[i].hash == es[j].hash
    ensures i == j
  {
  }

  /** With distinct hashes, only the event at position `n` can follow the first `n`. */
  lemma {:induction false} OnlyNextFits(es: seq<Event>, n: nat, j: nat)
    requires IsLedger(es) && HashesDistinct(es) && n <= |es| && j < |es|
    requires es[j].body.prev == LinkAfter(es[..n])
    ensures j == n
  {
    assert es[j].body.prev == LinkAfter(es[..j]);
    assert j > 0 ==> LinkAfter(es[..j]) == es[j - 1].hash == Sha(Digest(es[j - 1].body));
    assert n > 0 ==> LinkAfter(es[..n]) == es[n - 1].hash == Sha(Digest(es[n - 1].body));
    if j > 0 && n > 0 { SameHashSameEvent(es, j - 1, n - 1); }
  }

  /** The last event of a chain that follows the ledger so far follows it too. */
  lemma {:induction false} LastFollows(es: seq<Event>, s: seq<Event>)
    requires IsLedger(es) && HashesDistinct(es) && s != [] && s[..|s| - 1] <= es
    requires s[|s| - 1] in es && s[|s| - 1].body.prev == LinkAfter(s[..|s| - 1])
    ensures s <= es
  {
    var n := |s| - 1;
    var j :| 0 <= j < |es| && es[j] == s[n];
    assert s[..n] == es[..n];
    OnlyNextFits(es, n, j);
  }

  /** With distinct hashes, a chain of a ledger's events follows the ledger. */
  lemma {:induction false} ChainFollows(es: seq<Event>, s: seq<Event>)
    requires IsLedger(es) && HashesDistinct(es) && DrawnFrom(s, es) && Chained(s)
    ensures s <= es
    decreases |s|
  {
    if s != [] {
      var n := |s| - 1;
      PrefixChained(s, n);
      PrefixDrawn(s, es, n);
      ChainFollows(es, s[..n]);
      assert s[n] in s;
      LastFollows(es, s);
    }
  }

  lemma PrefixDrawn(s: seq<Event>, es: seq<Event>, n: nat)
    requires n <= |s| && DrawnFrom(s, es)
    ensures DrawnFrom(s[..n], es)
  {
  }

  /** With two equal hashes, events can be replayed after the later of the two. */
  lemma {:induction false} RepeatedHashReplays(es: seq<Event>, i: nat, j: nat)
    requires IsLedger(es) && i < j < |es| && es[i].hash == es[j].hash
    ensures var s := es[..j + 1] + [es[i + 1]]; DrawnFrom(s, es) && Chained(s) && !(s <= es)
  {
    var s := es[..j + 1] + [es[i + 1]];
    PrefixChained(es, j + 1);
    forall k | 0 <= k < |s| ensures s[k].body.prev == LinkAfter(s[..k]) {
      if k <= j {
        assert s[..k] == es[..k];
      } else {
        assert s[..k] == es[..j + 1];
        assert es[..i + 1][i] == es[i];
      }
    }
    assert s[j + 1] == es[i + 1];
    if j + 1 < |es| { assert es[j + 1].body.seqNo != es[i + 1].body.seqNo; }
  }

  /** Among all sequences of a ledger's own events, exactly its prefixes score 1, if and only if no two of its
      hashes are equal. */
  lemma ExactlyPrefixesIff(es: seq<Event>)
    requires IsLedger(es)
    ensures (forall s :: DrawnFrom(s, es) ==> (Chained(s) <==> s <= es)) <==> HashesDistinct(es)
  {
    if HashesDistinct(es) {
      forall s | DrawnFrom(s, es) ensures Chained(s) <==> s <= es {
        if Chained(s) { ChainFollows(es, s); }
        if s <= es { PrefixChained(es, |s|); assert es[..|s|] == s; }
      }
    } else {
      var i, j :| 0 <= i < j < |es| && es[i].hash == es[j].hash;
      RepeatedHashReplays(es, i, j);
    }
  }

  /** A digest without collisions keeps the hashes distinct, because events are numbered. */
  lemma {:induction false} NoCollisionsSuffice(es: seq<Event>)
    requires IsLedger(es) && forall b, c :: Digest(b) == Digest(c) ==> b == c
    ensures HashesDistinct(es)
  {
    forall i, j | 0 <= i < j < |es| ensures es[i].hash != es[j].hash { assert es[i].body.seqNo != es[j].body.seqNo; }
  }

  /** What a score of 1 leaves open, and what closes it: two ledgers that end in the same hash are the same
      ledger, if the digest has no collisions. Recomputing the hashes and keeping the last one pins down
      everything the events say. */
  lemma {:induction false} LastHashPinsLedger(es: seq<Event>, fs: seq<Event>)
    requires IsLedger(es) && IsLedger(fs) && LinkAfter(es) == LinkAfter(fs)
    requires forall b, c :: Digest(b) == Digest(c) ==> b == c
    ensures es == fs
    decreases |es|
  {
    if es != [] {
      var m, n := |es| - 1, |fs| - 1;
      LastSame(es, fs);
      PrefixLedger(es, m);
      PrefixLedger(fs, m);
      LastHashPinsLedger(es[..m], fs[..m]);
      assert es == es[..m] + [es[m]] && fs == fs[..m] + [fs[m]];
    }
  }

  lemma {:induction false} LastSame(es: seq<Event>, fs: seq<Event>)
    requires IsLedger(es) && IsLedger(fs) && LinkAfter(es) == LinkAfter(fs) && es != []
    requires forall b, c :: Digest(b) == Digest(c) ==> b == c
    ensures |es| == |fs| && es[|es| - 1] == fs[|es| - 1]
  {
    var m, n := |es| - 1, |fs| - 1;
    assert es[m].hash == Sha(Digest(es[m].body)) && es[m].body.seqNo == m;
    assert fs != [] && fs[n].hash == Sha(Digest(fs[n].body)) && fs[n].body.seqNo == n;
  }

  lemma {:induction false} PrefixLedger(es: seq<Event>, n: nat)
    requires IsLedger(es) && n < |es|
    ensures IsLedger(es[..n]) && LinkAfter(es[..n]) == es[n].body.prev
  {
    PrefixChained(es, n);
  }

  /** The score depends on the links alone: rewriting what events say, with their links kept, does not change
      it. */
  lemma {:induction false} ScoreSeesLinksOnly(es: seq<Event>, fs: seq<Event>)
    requires |es| == |fs|
    requires forall i :: 0 <= i < |es| ==> es[i].body.prev == fs[i].body.prev && es[i].hash == fs[i].hash
    ensures Chained(es) <==> Chained(fs)
  {
    forall i | 0 <= i < |es| ensures LinkAfter(es[..i]) == LinkAfter(fs[..i]) {
    }
  }
}
