/** An upload running alone against a store whose calls may fail, with or without having taken effect: how it can
    end, and what it leaves behind. */
module FaultyUpload {
  import opened Faults
  import opened Records
  import opened Protocol
  import opened Solo

  /** What an upload was asked to do. */
  datatype Request = Request(ref: Ref, data: Bytes, hold: bool, retain: Option<nat>)

  function At(q: Request, at: PutStage): Proc { Putting(at, q.ref, q.data, q.hold, q.retain) }

  /** The row while the upload is under way: the one there was, or a new one. */
  function RowOf(c0: Core, q: Request): Row {
    if q.ref in c0.rows then c0.rows[q.ref] else Row(q.ref.key.hash, None, PendingUpload, q.hold, q.retain)
  }

  predicate Served(c0: Core, q: Request) { q.ref in c0.rows && c0.rows[q.ref].state.Available? }

  /** The store holds what it held, and perhaps the data where there was nothing. */
  ghost predicate WrittenOnce(c0: Core, c: Core, q: Request) {
    c.objects == c0.objects || (q.ref.key !in c0.objects && c.objects == c0.objects[q.ref.key := q.data])
  }

  /** The object at the key has the size and the digest of the data. */
  predicate Holds(c: Core, q: Request) { HeadFits(c, q.ref.key, q.data) && Verifies(c, q.ref.key, Sha256(q.data)) }

  /** The rows with the one of this upload as stated. */
  ghost predicate RowsWith(c0: Core, c: Core, q: Request, row: Row) { c.rows == c0.rows[q.ref := row] && c.clock == c0.clock }

  /** Before the row is inserted nothing has changed; from then on the row is there and nothing is audited. */
  ghost predicate Underway(c0: Core, q: Request, x: Config) {
    var c, p := x.core, x.proc;
    && p.Putting? && p == At(q, p.at)
    && match p.at
       case Lookup => c == c0
       case CheckHead => c == c0 && Served(c0, q)
       case CheckVerify => c == c0 && Served(c0, q) && HeadFits(c0, q.ref.key, q.data)
       case CheckFail => c == c0 && Served(c0, q)
       case InsertRow => c == c0 && !Served(c0, q)
       case Commit => Inserted(c0, q, c) && Holds(c, q)
       case Verify => Inserted(c0, q, c) && HeadFits(c, q.ref.key, q.data)
       case _ => Inserted(c0, q, c)
  }

  ghost predicate Inserted(c0: Core, q: Request, c: Core) {
    !Served(c0, q) && RowsWith(c0, c, q, RowOf(c0, q)) && WrittenOnce(c0, c, q) && c.audit == c0.audit
  }

  /** How an upload can end. Stored: the row is AVAILABLE and its key holds the data's size and digest. Failed:
      the row is UPLOAD_FAILED. Corrupt: a row that was AVAILABLE is DELETE_FAILED. Store error: nothing has
      changed. In every case all other rows, all existing objects and the audit so far are as before, and at most
      one event has been added. */
  ghost predicate Ended(c0: Core, q: Request, x: Config) {
    var c, row := x.core, RowOf(c0, q);
    && x.proc.Done?
    && match x.proc.outcome
       case Stored(ref) =>
         && ref == q.ref && Holds(c, q)
         && (if Served(c0, q) then c == c0
             else
               && WrittenOnce(c0, c, q)
               && RowsWith(c0, c, q, row.(state := Available, byteSize := Some(|q.data|)))
               && c.audit == c0.audit + [Event(q.ref, PendingUpload, Available)])
       case UploadError =>
         && !Served(c0, q) && WrittenOnce(c0, c, q) && RowsWith(c0, c, q, row.(state := UploadFailed))
         && c.audit == c0.audit + [Event(q.ref, PendingUpload, UploadFailed)]
       case Corrupt =>
         && Served(c0, q) && c.objects == c0.objects && RowsWith(c0, c, q, row.(state := DeleteFailed))
         && c.audit == c0.audit + [Event(q.ref, Available, DeleteFailed)]
       case StoreError => c == c0 && Served(c0, q)
       case _ => false
  }

  /** A step of the path that checks an artifact already served. */
  lemma CheckMoves(c0: Core, q: Request, x: Config, ch: Choice)
    requires Underway(c0, q, x) && (x.proc.at.CheckHead? || x.proc.at.CheckVerify? || x.proc.at.CheckFail?)
    ensures Underway(c0, q, FaultyMove(x, ch)) || Ended(c0, q, FaultyMove(x, ch))
  {
  }

  /** A step of the path that inserts, writes and verifies. */
  lemma WriteMoves(c0: Core, q: Request, x: Config, ch: Choice)
    requires Underway(c0, q, x)
    requires x.proc.at.Lookup? || x.proc.at.InsertRow? || x.proc.at.WriteObject? || x.proc.at.Head? || x.proc.at.Verify?
    ensures Underway(c0, q, FaultyMove(x, ch))
  {
  }

  /** The closing step. */
  lemma ClosingMoves(c0: Core, q: Request, x: Config, ch: Choice)
    requires Underway(c0, q, x) && (x.proc.at.Commit? || x.proc.at.Failed?)
    ensures Ended(c0, q, FaultyMove(x, ch))
  {
  }

  lemma {:induction false} MoveEnds(c0: Core, q: Request, x: Config, ch: Choice)
    requires Underway(c0, q, x) || Ended(c0, q, x)
    ensures Underway(c0, q, FaultyMove(x, ch)) || Ended(c0, q, FaultyMove(x, ch))
  {
    if Underway(c0, q, x) {
      match x.proc.at
      case CheckHead => CheckMoves(c0, q, x, ch);
      case CheckVerify => CheckMoves(c0, q, x, ch);
      case CheckFail => CheckMoves(c0, q, x, ch);
      case Commit => ClosingMoves(c0, q, x, ch);
      case Failed => ClosingMoves(c0, q, x, ch);
      case _ => WriteMoves(c0, q, x, ch);
    }
  }

  lemma {:induction false} FaultyUnderway(c0: Core, q: Request, choices: seq<Choice>)
    ensures var x := Faulty(Config(c0, At(q, Lookup)), choices); Underway(c0, q, x) || Ended(c0, q, x)
  {
    if choices != [] {
      FaultyUnderway(c0, q, choices[..|choices| - 1]);
      MoveEnds(c0, q, Faulty(Config(c0, At(q, Lookup)), choices[..|choices| - 1]), choices[|choices| - 1]);
    }
  }

  /** Whatever store calls fail, and whether or not they took effect, an upload that has ended has ended in one of
      these ways. */
  lemma FaultyUploadOutcome(c0: Core, q: Request, choices: seq<Choice>)
    requires Faulty(Config(c0, At(q, Lookup)), choices).proc.Done?
    ensures Ended(c0, q, Faulty(Config(c0, At(q, Lookup)), choices))
  {
    FaultyUnderway(c0, q, choices);
  }
}
